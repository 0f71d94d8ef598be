/** The operations of core/pbuf.c on the bytes of chains: skipping, reading, writing, copying between
  * differently cut chains, comparing and searching. */
module PbufCopy {
  import opened Words
  import opened PbufMemory
  import opened CopyLengths

  datatype Err = ErrOk | ErrMem | ErrArg | ErrVal

  // ---------- positions and writes ----------

  /** The number of bytes in front of the i-th pbuf. */
  ghost function Pos(m: Mem, c: seq<Addr>, i: nat): nat
    requires InMem(m, c) && i <= |c|
  {
    assert forall a | a in c[..i] :: a in c;
    |Flat(m, c[..i])|
  }

  lemma {:induction false} PosStep(m: Mem, c: seq<Addr>, i: nat)
    requires InMem(m, c) && i <= |c|
    ensures Pos(m, c, 0) == 0 && Pos(m, c, |c|) == |Flat(m, c)| && Pos(m, c, i) <= |Flat(m, c)|
    ensures i < |c| ==> c[i] in m && Pos(m, c, i + 1) == Pos(m, c, i) + m[c[i]].Len() <= |Flat(m, c)|
    ensures i < |c| ==> m[c[i]].data == Flat(m, c)[Pos(m, c, i)..Pos(m, c, i + 1)]
  {
    assert c[..0] == [] && c[..|c|] == c;
    if i < |c| {
      FlatSplit(m, c, i);
    }
  }

  function Splice(s: seq<byte>, at: nat, d: seq<byte>): seq<byte>
    requires at + |d| <= |s|
  {
    s[..at] + d + s[at + |d|..]
  }

  lemma {:induction false} SpliceTwice(s: seq<byte>, at: nat, d: seq<byte>, e: seq<byte>)
    requires at + |d| + |e| <= |s|
    ensures Splice(Splice(s, at, d), at + |d|, e) == Splice(s, at, d + e)
  {
  }

  /** Only the bytes of c have changed, to bytes. */
  ghost predicate Written(m0: Mem, m: Mem, c: seq<Addr>, bytes: seq<byte>) {
    && InMem(m0, c) && m.Keys == m0.Keys && InMem(m, c) && Flat(m, c) == bytes
    && (forall a | a in m0 && a !in c :: m[a] == m0[a])
    && (forall a | a in c :: |m[a].data| == |m0[a].data| && m[a] == m0[a].(data := m[a].data))
  }

  lemma {:induction false} WrittenChain(m0: Mem, m: Mem, h: Addr, c: seq<Addr>, bytes: seq<byte>)
    requires Written(m0, m, c, bytes) && IsChain(m0, h, c)
    ensures IsChain(m, h, c) && |bytes| == |Flat(m0, c)| && (ExactTot(m0, c) ==> ExactTot(m, c))
    ensures forall i | 0 <= i <= |c| :: Pos(m, c, i) == Pos(m0, c, i)
  {
    ExactKeeps(m0, m, c);
    LinksKeep(m0, m, h, c);
    forall i | 0 <= i <= |c| ensures Pos(m, c, i) == Pos(m0, c, i) {
      assert forall a | a in c[..i] :: a in c;
      ExactKeeps(m0, m, c[..i]);
    }
  }

  lemma {:induction false} LinksKeep(m: Mem, n: Mem, h: Addr, c: seq<Addr>)
    requires IsChain(m, h, c) && InMem(m, c) && InMem(n, c) && forall a | a in c :: n[a].next == m[a].next
    ensures IsChain(n, h, c)
    decreases |c|
  {
    if h != NULL {
      LinksKeep(m, n, m[h].next, c[1..]);
    }
  }

  /** Bytes put into one pbuf. */
  function Poke(b: Pbuf, at: nat, d: seq<byte>): Pbuf
    requires at + |d| <= b.Len()
  {
    b.(data := Splice(b.data, at, d))
  }

  /** Writing into the i-th pbuf of a chain is writing into its bytes. */
  lemma {:induction false} PokeWrites(m: Mem, h: Addr, c: seq<Addr>, i: nat, at: nat, d: seq<byte>)
    requires IsChain(m, h, c) && i < |c| && InMem(m, c) && c[i] in m && at + |d| <= m[c[i]].Len()
    ensures Pos(m, c, i) + at + |d| <= |Flat(m, c)|
    ensures Written(m, m[c[i] := Poke(m[c[i]], at, d)], c, Splice(Flat(m, c), Pos(m, c, i) + at, d))
  {
    var n := m[c[i] := Poke(m[c[i]], at, d)];
    FlatSplit(m, c, i);
    assert Distinct(c) by { ChainDistinct(m, h, c); }
    PokeFlat(m, n, c, i, at, d);
    assert |n[c[i]].data| == |m[c[i]].data|;
  }

  lemma {:induction false} PokeFlat(m: Mem, n: Mem, c: seq<Addr>, i: nat, at: nat, d: seq<byte>)
    requires Distinct(c) && i < |c| && InMem(m, c) && InMem(n, c) && c[i] in m && at + |d| <= m[c[i]].Len()
    requires n[c[i]].data == Splice(m[c[i]].data, at, d) && forall a | a in c && a != c[i] :: n[a].data == m[a].data
    ensures Pos(m, c, i) + at + |d| <= |Flat(m, c)|
    ensures Flat(n, c) == Splice(Flat(m, c), Pos(m, c, i) + at, d)
  {
    var before, after := c[..i], c[i + 1..];
    FlatSplit(m, c, i);
    FlatSplit(n, c, i);
    assert Flat(n, before) == Flat(m, before) by {
      assert forall a | a in before :: a in c && a != c[i];
      FlatKeeps(m, n, before);
    }
    assert Flat(n, after) == Flat(m, after) by {
      assert forall a | a in after :: a in c && a != c[i];
      FlatKeeps(m, n, after);
    }
    SpliceMiddle(Flat(m, before), m[c[i]].data, Flat(m, after), at, d);
  }

  lemma {:induction false} SpliceMiddle(x: seq<byte>, y: seq<byte>, z: seq<byte>, at: nat, d: seq<byte>)
    requires at + |d| <= |y|
    ensures Splice(x + (y + z), |x| + at, d) == x + (Splice(y, at, d) + z)
  {
  }

  lemma {:induction false} WriteMore(m0: Mem, m: Mem, h: Addr, c: seq<Addr>, i: nat, at: nat, start: nat,
                                     d: seq<byte>, e: seq<byte>)
    requires IsChain(m0, h, c) && InMem(m0, c) && start + |d| <= |Flat(m0, c)|
        && Written(m0, m, c, Splice(Flat(m0, c), start, d))
    requires i < |c| && c[i] in m && at + |e| <= m[c[i]].Len() && Pos(m0, c, i) + at == start + |d|
    ensures start + |d| + |e| <= |Flat(m0, c)|
    ensures Written(m0, m[c[i] := Poke(m[c[i]], at, e)], c, Splice(Flat(m0, c), start, d + e))
  {
    WrittenChain(m0, m, h, c, Splice(Flat(m0, c), start, d));
    PokeWrites(m, h, c, i, at, e);
    SpliceTwice(Flat(m0, c), start, d, e);
  }

  // ---------- pbuf_skip and single bytes ----------

  ghost predicate At(m: Mem, h: Addr, c: seq<Addr>, q: Addr, i: nat) {
    IsChain(m, h, c) && InMem(m, c) && i <= |c| && q == (if i < |c| then c[i] else NULL)
      && (i < |c| ==> q != NULL && q in m)
  }

  lemma {:induction false} AtStart(m: Mem, h: Addr, c: seq<Addr>)
    requires IsChain(m, h, c)
    ensures At(m, h, c, h, 0)
  {
    ChainInMem(m, h, c);
  }

  lemma {:induction false} AtStep(m: Mem, h: Addr, c: seq<Addr>, q: Addr, i: nat)
    requires At(m, h, c, q, i) && q != NULL
    ensures i < |c| && At(m, h, c, m[q].next, i + 1)
    ensures Pos(m, c, i + 1) == Pos(m, c, i) + m[q].Len() <= |Flat(m, c)|
  {
    ChainInMem(m, h, c);
    ChainSuffix(m, h, c, i + 1);
    PosStep(m, c, i);
    if i + 1 < |c| {
      assert c[i + 1] in c;
    }
  }

  /** pbuf_skip: the pbuf that holds the byte at an offset, and where in it. */
  method Skip(heap: PbufHeap, p: Addr, offset: nat, ghost c: seq<Addr>) returns (q: Addr, out: nat, ghost i: nat)
    requires IsChain(heap.mem, p, c)
    ensures At(heap.mem, p, c, q, i) && Pos(heap.mem, c, i) + out == offset
    ensures q == NULL <==> offset >= |Flat(heap.mem, c)|
    ensures q != NULL ==> out < heap.mem[q].Len()
  {
    q, out, i := p, offset, 0;
    AtStart(heap.mem, p, c);
    PosStep(heap.mem, c, 0);
    while q != NULL && heap.mem[q].Len() <= out
      invariant At(heap.mem, p, c, q, i) && Pos(heap.mem, c, i) + out == offset
      decreases |c| - i
    {
      AtStep(heap.mem, p, c, q, i);
      out := out - heap.mem[q].Len();
      q := heap.mem[q].next;
      i := i + 1;
    }
    PosStep(heap.mem, c, i);
  }

  /** pbuf_try_get_at: a byte, or -1 behind the end. */
  method TryGetAt(heap: PbufHeap, p: Addr, offset: nat, ghost c: seq<Addr>) returns (r: int)
    requires IsChain(heap.mem, p, c)
    ensures InMem(heap.mem, c)
    ensures r == if offset < |Flat(heap.mem, c)| then Flat(heap.mem, c)[offset] else -1
  {
    var q, idx;
    ghost var i;
    q, idx, i := Skip(heap, p, offset, c);
    if q != NULL && heap.mem[q].Len() > idx {
      PosStep(heap.mem, c, i);
      r := heap.mem[q].data[idx];
    } else {
      r := -1;
    }
  }

  /** pbuf_put_at: writes one byte, silently none behind the end. */
  method PutAt(heap: PbufHeap, p: Addr, offset: nat, data: byte, ghost c: seq<Addr>)
    requires IsChain(heap.mem, p, c)
    modifies heap
    ensures InMem(old(heap.mem), c)
    ensures offset < |Flat(old(heap.mem), c)| ==>
              Written(old(heap.mem), heap.mem, c, Flat(old(heap.mem), c)[offset := data])
    ensures offset >= |Flat(old(heap.mem), c)| ==> heap.mem == old(heap.mem)
  {
    var q, idx;
    ghost var i;
    q, idx, i := Skip(heap, p, offset, c);
    if q != NULL && heap.mem[q].Len() > idx {
      PokeWrites(heap.mem, p, c, i, idx, [data]);
      assert Splice(Flat(heap.mem, c), offset, [data]) == Flat(heap.mem, c)[offset := data];
      heap.mem := heap.mem[q := Poke(heap.mem[q], idx, [data])];
    }
  }

  // ---------- pbuf_copy_partial ----------

  /** The slice of `all` that a request for len bytes from offset gets. */
  function Slice(all: seq<byte>, offset: nat, len: nat): seq<byte> {
    var from := Min(offset, |all|);
    all[from..Min(from + len, |all|)]
  }

  /** MEMCPY into a caller's buffer. */
  method CopyBytes(dst: array<byte>, at: nat, src: seq<byte>)
    requires at + |src| <= dst.Length
    modifies dst
    ensures dst[..] == Splice(old(dst[..]), at, src)
  {
    for k := 0 to |src|
      invariant forall i | 0 <= i < dst.Length :: dst[i] == if at <= i < at + k then src[i - at] else old(dst[i])
    {
      dst[at + k] := src[k];
    }
  }

  /** The same behind bytes that have been put there already. */
  method CopyBehind(dst: array<byte>, at: nat, copied: nat, src: seq<byte>, ghost d0: seq<byte>, ghost got: seq<byte>)
    requires copied == |got| && at + copied + |src| <= dst.Length == |d0| && dst[..] == Splice(d0, at, got)
    modifies dst
    ensures dst[..] == Splice(d0, at, got + src)
  {
    SpliceTwice(d0, at, got, src);
    CopyBytes(dst, at + copied, src);
  }

  /** As much of a pbuf from off on as is wanted. */
  method CopyFrom(heap: PbufHeap, p: Addr, dst: array<byte>, at: nat, copied: nat, left: nat, off: nat,
                  ghost d0: seq<byte>, ghost got: seq<byte>) returns (n: nat)
    requires p in heap.mem && off <= heap.mem[p].Len() && copied == |got| && at + copied + left <= dst.Length == |d0|
    requires dst[..] == Splice(d0, at, got)
    modifies dst
    ensures n == Min(heap.mem[p].Len() - off, left)
    ensures dst[..] == Splice(d0, at, got + heap.mem[p].data[off..off + n])
  {
    n := Min(heap.mem[p].Len() - off, left);
    CopyBehind(dst, at, copied, heap.mem[p].data[off..off + n], d0, got);
  }

  /** pbuf_copy_partial: copies from a chain into the caller's buffer, starting at `at` there. */
  method CopyPartial(heap: PbufHeap, buf: Addr, dst: array<byte>, at: nat, len: nat, offset: nat, ghost c: seq<Addr>)
    returns (copied: nat)
    requires IsChain(heap.mem, buf, c) && at + len <= dst.Length
    modifies dst
    ensures InMem(heap.mem, c) && copied == |Slice(Flat(heap.mem, c), offset, len)|
    ensures dst[..] == Splice(old(dst[..]), at, Slice(Flat(heap.mem, c), offset, len))
  {
    copied := 0;
    var p, left: nat, off: nat := buf, len, offset;
    ghost var i, d0, got, m := 0, dst[..], [], heap.mem;
    ReadStart(m, buf, c, len, offset);
    assert dst[..] == Splice(d0, at, []);
    while left != 0 && p != NULL
      invariant heap.mem == m && ReadTodo(m, buf, c, len, offset, p, i, left, off, got)
      invariant copied == |got| && copied + left == len && dst[..] == Splice(d0, at, got)
      decreases |c| - i
    {
      ReadStep(m, buf, c, len, offset, p, i, left, off, got);
      if off != 0 && off >= heap.mem[p].Len() {
        off := off - heap.mem[p].Len();
      } else {
        var n := CopyFrom(heap, p, dst, at, copied, left, off, d0, got);
        got := got + heap.mem[p].data[off..off + n];
        copied := copied + n;
        left := left - n;
        off := 0;
      }
      p := heap.mem[p].next;
      i := i + 1;
    }
    ReadDone(m, buf, c, len, offset, p, i, left, off, got);
  }

  /** pbuf_copy_partial has come to the i-th pbuf p and copied `got`; `off` bytes are to be skipped
    * before the next `left` bytes. */
  ghost predicate ReadTodo(m: Mem, h: Addr, c: seq<Addr>, len: nat, offset: nat, p: Addr, i: nat, left: nat,
                           off: nat, got: seq<byte>) {
    && At(m, h, c, p, i) && |got| + left == len && Got(Flat(m, c), offset, got)
    && (left != 0 ==> Pos(m, c, i) + off == offset + |got| && (|got| > 0 ==> off == 0))
  }

  ghost predicate Got(all: seq<byte>, offset: nat, got: seq<byte>) {
    var from := Min(offset, |all|);
    from + |got| <= |all| && got == all[from..from + |got|]
  }

  lemma {:induction false} GotMore(all: seq<byte>, offset: nat, got: seq<byte>, lo: nat, hi: nat, off: nat, n: nat)
    requires Got(all, offset, got) && lo <= hi <= |all| && lo + off == offset + |got| && off + n <= hi - lo
    ensures Got(all, offset, got + all[lo..hi][off..off + n])
  {
    Extend(all, offset, offset + |got|, lo, hi, off, n);
  }

  lemma {:induction false} ReadStart(m: Mem, h: Addr, c: seq<Addr>, len: nat, offset: nat)
    requires IsChain(m, h, c)
    ensures ReadTodo(m, h, c, len, offset, h, 0, len, offset, [])
  {
    AtStart(m, h, c);
    PosStep(m, c, 0);
  }

  /** A slice extended by a slice of a block that lies behind it. */
  lemma {:induction false} Extend(all: seq<byte>, from: nat, to: nat, lo: nat, hi: nat, off: nat, n: nat)
    requires from <= to && lo <= hi && lo + off == to && to + n <= hi <= |all|
    ensures all[from..to] + all[lo..hi][off..off + n] == all[from..to + n]
  {
    var block := all[lo..hi][off..off + n];
    forall k | 0 <= k < n ensures block[k] == all[to + k] {}
    assert all[from..to + n] == all[from..to] + all[to..to + n];
  }

  lemma {:induction false} ReadStep(m: Mem, h: Addr, c: seq<Addr>, len: nat, offset: nat, p: Addr, i: nat, left: nat,
                                    off: nat, got: seq<byte>)
    requires ReadTodo(m, h, c, len, offset, p, i, left, off, got) && left != 0 && p != NULL
    ensures var b := m[p];
            if off != 0 && off >= b.Len() then ReadTodo(m, h, c, len, offset, b.next, i + 1, left, off - b.Len(), got)
            else
              var n := Min(b.Len() - off, left);
              0 <= n <= left && ReadTodo(m, h, c, len, offset, b.next, i + 1, left - n, 0, got + b.data[off..off + n])
  {
    AtStep(m, h, c, p, i);
    if !(off != 0 && off >= m[p].Len()) {
      PosStep(m, c, i);
      GotMore(Flat(m, c), offset, got, Pos(m, c, i), Pos(m, c, i + 1), off, Min(m[p].Len() - off, left));
    }
  }

  lemma {:induction false} ReadDone(m: Mem, h: Addr, c: seq<Addr>, len: nat, offset: nat, p: Addr, i: nat, left: nat,
                                    off: nat, got: seq<byte>)
    requires ReadTodo(m, h, c, len, offset, p, i, left, off, got) && (left == 0 || p == NULL)
    ensures Slice(Flat(m, c), offset, len) == got
  {
    PosStep(m, c, i);
  }

  // ---------- pbuf_take, pbuf_take_at ----------

  /** pbuf_take, for a pbuf that is the j-th of the chain c at h. */
  method Take(heap: PbufHeap, buf: Addr, d: seq<byte>, ghost h: Addr, ghost c: seq<Addr>, ghost j: nat)
      returns (err: Err)
    requires At(heap.mem, h, c, buf, j) && ExactTot(heap.mem, c)
    modifies heap
    ensures InMem(old(heap.mem), c) && j <= |c|
    ensures err == if buf == NULL then ErrArg
                   else if Pos(old(heap.mem), c, j) + |d| > |Flat(old(heap.mem), c)| then ErrMem else ErrOk
    ensures err != ErrOk ==> heap.mem == old(heap.mem)
    ensures err == ErrOk ==>
              Written(old(heap.mem), heap.mem, c, Splice(Flat(old(heap.mem), c), Pos(old(heap.mem), c, j), d))
  {
    if buf == NULL {
      return ErrArg;
    }
    RestLength(heap.mem, h, c, buf, j);
    if heap.mem[buf].totLen < |d| {
      return ErrMem;
    }
    ghost var m0 := heap.mem;
    TakeLoop(heap, buf, d, h, c, j);
    TakeDone(m0, h, c, j, d, heap.mem, NULL, |c|);
    err := ErrOk;
  }

  /** The loop of pbuf_take. */
  method TakeLoop(heap: PbufHeap, buf: Addr, d: seq<byte>, ghost h: Addr, ghost c: seq<Addr>, ghost j: nat)
    requires At(heap.mem, h, c, buf, j) && Pos(heap.mem, c, j) + |d| <= |Flat(heap.mem, c)|
    modifies heap
    ensures TakeTodo(old(heap.mem), h, c, j, d, heap.mem, NULL, |c|, |d|)
  {
    ghost var m0, i := heap.mem, j;
    TakeStart(m0, h, c, j, d, buf);
    var p, total: nat, copied: nat := buf, |d|, 0;
    while total != 0
      invariant copied + total == |d|
      invariant TakeTodo(m0, h, c, j, d, heap.mem, p, i, copied)
      decreases |c| - i
    {
      var n;
      p, n := TakePiece(heap, p, d, copied, m0, h, c, j, i);
      total := total - n;
      copied := copied + n;
      i := i + 1;
    }
    TakeDone(m0, h, c, j, d, heap.mem, p, i);
  }

  /** What goes into one pbuf. */
  method TakePiece(heap: PbufHeap, p: Addr, d: seq<byte>, copied: nat,
                   ghost m0: Mem, ghost h: Addr, ghost c: seq<Addr>, ghost j: nat, ghost i: nat)
      returns (next: Addr, n: nat)
    requires TakeTodo(m0, h, c, j, d, heap.mem, p, i, copied) && copied < |d|
    modifies heap
    ensures i < |c| && n <= |d| - copied && TakeTodo(m0, h, c, j, d, heap.mem, next, i + 1, copied + n)
  {
    TakeStep(m0, h, c, j, d, heap.mem, p, i, copied);
    n := |d| - copied;
    if n > heap.mem[p].Len() {
      n := heap.mem[p].Len();
    }
    next := heap.mem[p].next;
    heap.mem := heap.mem[p := Poke(heap.mem[p], 0, d[copied..copied + n])];
  }

  lemma {:induction false} TakeDone(m0: Mem, h: Addr, c: seq<Addr>, j: nat, d: seq<byte>, m: Mem, p: Addr, i: nat)
    requires TakeTodo(m0, h, c, j, d, m, p, i, |d|)
    ensures TakeTodo(m0, h, c, j, d, m, NULL, |c|, |d|)
    ensures InMem(m0, c) && j <= |c| && Written(m0, m, c, Splice(Flat(m0, c), Pos(m0, c, j), d))
  {
    assert d[..|d|] == d;
  }

  lemma {:induction false} RestLength(m: Mem, h: Addr, c: seq<Addr>, q: Addr, j: nat)
    requires At(m, h, c, q, j) && ExactTot(m, c) && q != NULL
    ensures Pos(m, c, j) + m[q].totLen == |Flat(m, c)|
  {
    ExactSuffix(m, c, j);
    FlatSplit(m, c, j);
  }

  ghost predicate TakeTodo(m0: Mem, h: Addr, c: seq<Addr>, j: nat, d: seq<byte>, m: Mem, p: Addr, i: nat, copied: nat) {
    && IsChain(m0, h, c) && InMem(m0, c) && j <= i <= |c| && copied <= |d| && Pos(m0, c, j) + |d| <= |Flat(m0, c)|
    && (copied < |d| ==> At(m0, h, c, p, i) && Pos(m0, c, i) == Pos(m0, c, j) + copied)
    && Written(m0, m, c, Splice(Flat(m0, c), Pos(m0, c, j), d[..copied]))
  }

  lemma {:induction false} TakeStart(m0: Mem, h: Addr, c: seq<Addr>, j: nat, d: seq<byte>, p: Addr)
    requires At(m0, h, c, p, j) && Pos(m0, c, j) + |d| <= |Flat(m0, c)|
    ensures TakeTodo(m0, h, c, j, d, m0, p, j, 0)
  {
    assert Splice(Flat(m0, c), Pos(m0, c, j), d[..0]) == Flat(m0, c);
  }

  lemma {:induction false} TakeStep(m0: Mem, h: Addr, c: seq<Addr>, j: nat, d: seq<byte>, m: Mem, p: Addr, i: nat,
                                    copied: nat)
    requires TakeTodo(m0, h, c, j, d, m, p, i, copied) && copied < |d|
    ensures p in m && i < |c|
    ensures var n := Min(|d| - copied, m[p].Len());
            n >= 0 && TakeTodo(m0, h, c, j, d, m[p := Poke(m[p], 0, d[copied..copied + n])], m[p].next, i + 1,
              copied + n)
  {
    PosStep(m0, c, i);
    AtStep(m0, h, c, p, i);
    var n := Min(|d| - copied, m[p].Len());
    WriteMore(m0, m, h, c, i, 0, Pos(m0, c, j), d[..copied], d[copied..copied + n]);
    assert d[..copied] + d[copied..copied + n] == d[..copied + n];
  }

  /** pbuf_take_at: all of d goes in at the offset, or nothing does. */
  method TakeAt(heap: PbufHeap, buf: Addr, d: seq<byte>, offset: nat, ghost c: seq<Addr>) returns (err: Err)
    requires IsChain(heap.mem, buf, c) && InMem(heap.mem, c) && ExactTot(heap.mem, c)
    modifies heap
    ensures InMem(old(heap.mem), c)
    ensures err == if offset < |Flat(old(heap.mem), c)| && offset + |d| <= |Flat(old(heap.mem), c)| then ErrOk
        else ErrMem
    ensures err == ErrMem ==> heap.mem == old(heap.mem)
    ensures err == ErrOk ==> Written(old(heap.mem), heap.mem, c, Splice(Flat(old(heap.mem), c), offset, d))
  {
    ghost var m0, i := heap.mem, 0;
    var q, target;
    q, target, i := Skip(heap, buf, offset, c);
    if q != NULL {
      RestLength(m0, buf, c, q, i);
    }
    if q == NULL || heap.mem[q].totLen < target + |d| {
      return ErrMem;
    }
    var first := Min(heap.mem[q].Len() - target, |d|);
    TakeFirst(m0, buf, c, q, i, target, d, first);
    heap.mem := heap.mem[q := Poke(heap.mem[q], target, d[..first])];
    if |d| - first > 0 {
      err := TakeTail(heap, heap.mem[q].next, d, first, offset, buf, c, i + 1, m0);
    } else {
      assert d[..first] == d;
      err := ErrOk;
    }
  }

  /** The part of pbuf_take_at that goes to the pbufs behind the first one. */
  method TakeTail(heap: PbufHeap, next: Addr, d: seq<byte>, first: nat, ghost offset: nat, ghost h: Addr,
                  ghost c: seq<Addr>, ghost i: nat, ghost m0: Mem)
    returns (err: Err)
    requires InMem(m0, c) && first < |d| && offset + |d| <= |Flat(m0, c)|
    requires Written(m0, heap.mem, c, Splice(Flat(m0, c), offset, d[..first])) && |Flat(heap.mem, c)| == |Flat(m0, c)|
    requires At(heap.mem, h, c, next, i) && ExactTot(heap.mem, c) && Pos(heap.mem, c, i) == offset + first
    modifies heap
    ensures err == ErrOk && Written(m0, heap.mem, c, Splice(Flat(m0, c), offset, d))
  {
    ghost var m1 := heap.mem;
    PosStep(m1, c, i);
    err := Take(heap, next, d[first..], h, c, i);
    TakeRest(m0, m1, heap.mem, h, c, offset, d, first);
  }

  lemma {:induction false} TakeFirst(m: Mem, h: Addr, c: seq<Addr>, q: Addr, i: nat, target: nat, d: seq<byte>,
                                     first: nat)
    requires At(m, h, c, q, i) && q != NULL && ExactTot(m, c) && target < m[q].Len()
        && first == Min(m[q].Len() - target, |d|)
    requires Pos(m, c, i) + target + |d| <= |Flat(m, c)|
    ensures var n := m[q := Poke(m[q], target, d[..first])];
            && Written(m, n, c, Splice(Flat(m, c), Pos(m, c, i) + target, d[..first]))
            && At(n, h, c, n[q].next, i + 1) && ExactTot(n, c)
            && |Flat(n, c)| == |Flat(m, c)|
            && (first < |d| ==> Pos(n, c, i + 1) == Pos(m, c, i) + target + first)
  {
    var n, bytes := m[q := Poke(m[q], target, d[..first])], Splice(Flat(m, c), Pos(m, c, i) + target, d[..first]);
    PosStep(m, c, i);
    assert Written(m, n, c, bytes) by { PokeWrites(m, h, c, i, target, d[..first]); }
    WrittenChain(m, n, h, c, bytes);
    AtStep(m, h, c, q, i);
  }

  /** The second part of a write completes the first. */
  lemma {:induction false} TakeRest(m0: Mem, m1: Mem, m2: Mem, h: Addr, c: seq<Addr>, offset: nat, d: seq<byte>,
                                    first: nat)
    requires InMem(m0, c) && first <= |d| && offset + |d| <= |Flat(m0, c)|
    requires Written(m0, m1, c, Splice(Flat(m0, c), offset, d[..first]))
    requires Written(m1, m2, c, Splice(Flat(m1, c), offset + first, d[first..]))
    ensures Written(m0, m2, c, Splice(Flat(m0, c), offset, d))
  {
    SpliceTwice(Flat(m0, c), offset, d[..first], d[first..]);
    assert d[..first] + d[first..] == d;
  }

  /** What has been written at an offset is read back from there, and reading anywhere that does
    * not overlap gives what it gave before. */
  lemma {:induction false} SpliceRoundTrip(s: seq<byte>, at: nat, d: seq<byte>, offset: nat, len: nat)
    requires at + |d| <= |s|
    ensures Slice(Splice(s, at, d), at, |d|) == d
    ensures offset + len <= at || offset >= at + |d| ==> Slice(Splice(s, at, d), offset, len) == Slice(s, offset, len)
  {
    assert Splice(s, at, d)[at..at + |d|] == d;
  }

  /** The round trip on a chain: pbuf_take_at, then pbuf_copy_partial of the same stretch. */
  method TakeThenCopy(heap: PbufHeap, buf: Addr, d: seq<byte>, offset: nat, dst: array<byte>, ghost c: seq<Addr>)
      returns (n: nat)
    requires IsChain(heap.mem, buf, c) && InMem(heap.mem, c) && ExactTot(heap.mem, c)
    requires offset < |Flat(heap.mem, c)| && offset + |d| <= |Flat(heap.mem, c)| && |d| <= dst.Length
    modifies heap, dst
    ensures n == |d| && dst[..n] == d
  {
    ghost var m0 := heap.mem;
    var err := TakeAt(heap, buf, d, offset, c);
    WrittenChain(m0, heap.mem, buf, c, Splice(Flat(m0, c), offset, d));
    SpliceRoundTrip(Flat(m0, c), offset, d, 0, 0);
    n := CopyPartial(heap, buf, dst, 0, |d|, offset, c);
    assert dst[..n] == d;
  }

  // ---------- pbuf_copy ----------

  /** The lengths of a chain's pbufs. */
  ghost function Lens(m: Mem, c: seq<Addr>): seq<nat>
    requires InMem(m, c)
  {
    if c == [] then [] else [m[c[0]].Len()] + Lens(m, c[1..])
  }

  /** What pbuf_copy does: if the target is too small nothing happens; with room it fails exactly under a
    * condition on the lengths of the pbufs, having copied no more than a first part; success means that
    * the target's bytes start with the source's. */
  ghost predicate Copied(m0: Mem, to: Addr, ct: seq<Addr>, from: Addr, cf: seq<Addr>, m: Mem, err: Err)
    requires InMem(m0, ct) && InMem(m0, cf)
  {
    if to == NULL || from == NULL || |Flat(m0, ct)| < |Flat(m0, cf)| then err == ErrArg && m == m0
    else
      && Lens(m0, ct) != [] && Lens(m0, cf) != []
      && (err == ErrOk <==> !Stops(Lens(m0, ct), Lens(m0, cf)))
      && (err == ErrOk ==> CopiedUpTo(m0, ct, cf, m, |Flat(m0, cf)|))
      && (err != ErrOk ==> exists n :: CopiedUpTo(m0, ct, cf, m, n))
  }

  /** The target starts with the first n bytes of the source; nothing else has changed. */
  ghost predicate CopiedUpTo(m0: Mem, ct: seq<Addr>, cf: seq<Addr>, m: Mem, n: nat)
    requires InMem(m0, ct) && InMem(m0, cf)
  {
    && n <= |Flat(m0, cf)| <= |Flat(m0, ct)|
    && Written(m0, m, ct, Splice(Flat(m0, ct), 0, Flat(m0, cf)[..n]))
  }

  /** pbuf_copy: the two chains may be cut into pbufs in any two ways. */
  method Copy(heap: PbufHeap, to: Addr, from: Addr, ghost ct: seq<Addr>, ghost cf: seq<Addr>) returns (err: Err)
    requires IsChain(heap.mem, to, ct) && IsChain(heap.mem, from, cf) && Elems(ct) !! Elems(cf)
    requires InMem(heap.mem, ct) && InMem(heap.mem, cf) && ExactTot(heap.mem, ct) && ExactTot(heap.mem, cf)
    modifies heap
    ensures InMem(old(heap.mem), ct) && InMem(old(heap.mem), cf)
    ensures Copied(old(heap.mem), to, ct, from, cf, heap.mem, err)
  {
    CopyTotals(heap.mem, to, ct);
    CopyTotals(heap.mem, from, cf);
    if to == NULL || from == NULL || heap.mem[to].totLen < heap.mem[from].totLen {
      return ErrArg;
    }
    ghost var m0, result := heap.mem, CopyResult(heap.mem, ct, cf);
    err := CopyLoop(heap, to, from, ct, cf, result);
    CopyIff(m0, ct, cf);
  }

  function ErrOf(r: Outcome): Err {
    match r case Done => ErrOk case TooSmall => ErrArg case TwoPackets => ErrVal
  }

  /** How the loop ends, from the lengths. */
  ghost function CopyResult(m: Mem, ct: seq<Addr>, cf: seq<Addr>): Outcome
    requires InMem(m, ct) && InMem(m, cf)
  {
    if Lens(m, ct) == [] || Lens(m, cf) == [] then Done else Run(Lens(m, ct), 0, Lens(m, cf), 0)
  }

  lemma {:induction false} CopyIff(m: Mem, ct: seq<Addr>, cf: seq<Addr>)
    requires ct != [] && cf != [] && InMem(m, ct) && InMem(m, cf) && |Flat(m, ct)| >= |Flat(m, cf)|
    ensures Lens(m, ct) != [] && Lens(m, cf) != []
    ensures CopyResult(m, ct, cf) == Done <==> !Stops(Lens(m, ct), Lens(m, cf))
  {
    LensSum(m, ct);
    LensSum(m, cf);
    RunStops(Lens(m, ct), Lens(m, cf));
  }

  lemma {:induction false} LensSum(m: Mem, c: seq<Addr>)
    requires InMem(m, c)
    ensures |Lens(m, c)| == |c| && Sum(Lens(m, c)) == |Flat(m, c)|
  {
    if c != [] {
      LensSum(m, c[1..]);
      assert Lens(m, c)[1..] == Lens(m, c[1..]);
    }
  }

  lemma {:induction false} LensOne(m: Mem, a: Addr)
    requires a in m && a != NULL && m[a].next == NULL && m[a].totLen == m[a].Len()
    ensures IsChain(m, a, [a]) && Flat(m, [a]) == m[a].data && Lens(m, [a]) == [m[a].Len()] && ExactTot(m, [a])
  {
    assert [a][1..] == [];
  }

  /** Two chains with room on which pbuf_copy fails: 5 bytes into 5 bytes, the source followed by an empty pbuf. */
  lemma {:induction false} CopyFails() returns (m: Mem)
    ensures IsChain(m, 1, [1]) && IsChain(m, 2, [2, 3]) && InMem(m, [1]) && InMem(m, [2, 3])
    ensures ExactTot(m, [1]) && ExactTot(m, [2, 3]) && |Flat(m, [1])| == |Flat(m, [2, 3])| == 5
    ensures Lens(m, [1]) == [5] && Lens(m, [2, 3]) == [5, 0] && Stops([5], [5, 0])
  {
    var d: Payload := [0, 1, 2, 3, 4];
    m := map[1 := Pbuf(NULL, 0, d, 5, 1, false), 2 := Pbuf(3, 0, d, 5, 1, false), 3 := Pbuf(NULL, 0, [], 0, 1, false)];
    LensOne(m, 1);
    LensOne(m, 3);
    assert [2, 3][1..] == [3];
    StopsSome();
  }

  /** A place in a chain: byte off of its i-th pbuf p, or its end. */
  datatype Place = Place(p: Addr, i: nat, off: nat)

  /** The loop of pbuf_copy. */
  method CopyLoop(heap: PbufHeap, to: Addr, from: Addr, ghost ct: seq<Addr>, ghost cf: seq<Addr>,
                  ghost result: Outcome) returns (err: Err)
    requires CopyPair(heap.mem, to, ct, from, cf) && to != NULL && from != NULL
        && result == CopyResult(heap.mem, ct, cf)
    modifies heap
    ensures InMem(old(heap.mem), ct) && InMem(old(heap.mem), cf) && err == ErrOf(result)
    ensures exists n :: CopiedUpTo(old(heap.mem), ct, cf, heap.mem, n)
    ensures err == ErrOk ==> CopiedUpTo(old(heap.mem), ct, cf, heap.mem, |Flat(old(heap.mem), cf)|)
  {
    ghost var m0, a, b := heap.mem, Place(to, 0, 0), Place(from, 0, 0);
    CopyStart(m0, to, ct, from, cf, result);
    var p, q, ot: nat, of: nat := to, from, 0, 0;
    while true
      invariant a == Place(p, a.i, ot) && b == Place(q, b.i, of) && p != NULL && q != NULL
      invariant CopyTodo(m0, to, ct, from, cf, heap.mem, a, b) && CopyRun(m0, ct, cf, a, b, result)
      decreases |ct| - a.i + |cf| - b.i
    {
      p, ot, q, of, a, b := CopyRound(heap, p, ot, q, of, m0, to, ct, from, cf, a, b, result);
      CopyExits(m0, to, ct, from, cf, heap.mem, a, b, result);
      if p == NULL && q != NULL {
        return ErrArg;
      }
      if q != NULL && heap.mem[q].Len() == heap.mem[q].totLen && heap.mem[q].next != NULL {
        return ErrVal;
      }
      if p != NULL && heap.mem[p].Len() == heap.mem[p].totLen && heap.mem[p].next != NULL {
        return ErrVal;
      }
      if q == NULL {
        break;
      }
    }
    err := ErrOk;
  }

  /** One round: a copy of as much as both pbufs have, and the two possible moves to a next pbuf. */
  method CopyRound(heap: PbufHeap, p: Addr, ot: nat, q: Addr, of: nat, ghost m0: Mem, ghost to: Addr,
                   ghost ct: seq<Addr>, ghost from: Addr, ghost cf: seq<Addr>, ghost a: Place, ghost b: Place,
                   ghost result: Outcome)
    returns (p1: Addr, ot1: nat, q1: Addr, of1: nat, ghost a1: Place, ghost b1: Place)
    requires a == Place(p, a.i, ot) && b == Place(q, b.i, of) && p != NULL && q != NULL
    requires CopyTodo(m0, to, ct, from, cf, heap.mem, a, b) && CopyRun(m0, ct, cf, a, b, result)
    modifies heap
    ensures a1 == Place(p1, a1.i, ot1) && b1 == Place(q1, b1.i, of1) && a1.i <= |ct| && b1.i <= |cf|
        && a1.i + b1.i > a.i + b.i
    ensures CopyTodo(m0, to, ct, from, cf, heap.mem, a1, b1) && CopyDecided(m0, ct, cf, a1, b1, result)
  {
    CopyReady(m0, to, ct, from, cf, heap.mem, a, b);
    ghost var m1 := heap.mem;
    var len := CopyPiece(heap, p, ot, q, of);
    q1, of1, b1 := MoveOn(heap, q, of + len, b);
    p1, ot1, a1 := MoveOn(heap, p, ot + len, a);
    CopyRounded(m0, to, ct, from, cf, m1, a, b, len, heap.mem, a1, b1, result);
  }

  /** As much as both pbufs have. */
  method CopyPiece(heap: PbufHeap, p: Addr, ot: nat, q: Addr, of: nat) returns (len: nat)
    requires p in heap.mem && q in heap.mem && p != q && ot <= heap.mem[p].Len() && of <= heap.mem[q].Len()
    modifies heap
    ensures ot + len <= old(heap.mem)[p].Len() && of + len <= old(heap.mem)[q].Len()
    ensures ot + len == old(heap.mem)[p].Len() || of + len == old(heap.mem)[q].Len()
    ensures heap.mem == old(heap.mem)[p := Poke(old(heap.mem)[p], ot, old(heap.mem)[q].data[of..of + len])]
  {
    if heap.mem[p].Len() - ot >= heap.mem[q].Len() - of {
      len := heap.mem[q].Len() - of;
    } else {
      len := heap.mem[p].Len() - ot;
    }
    heap.mem := heap.mem[p := Poke(heap.mem[p], ot, heap.mem[q].data[of..of + len])];
  }

  /** On to the next pbuf if this one is used up. */
  method MoveOn(heap: PbufHeap, p: Addr, off: nat, ghost a: Place) returns (p1: Addr, off1: nat, ghost a1: Place)
    requires p in heap.mem && a.p == p && a.off <= off <= heap.mem[p].Len()
    ensures a1 == Place(p1, a1.i, off1) && a.i <= a1.i <= a.i + 1 && (off == heap.mem[p].Len() ==> a1.i == a.i + 1)
    ensures Moves(heap.mem, a, off - a.off, a1)
  {
    if off >= heap.mem[p].Len() {
      return heap.mem[p].next, 0, Place(heap.mem[p].next, a.i + 1, 0);
    }
    return p, off, Place(p, a.i, off);
  }

  /** Two disjoint chains with exact total lengths, the first one at least as long. */
  ghost predicate CopyPair(m0: Mem, to: Addr, ct: seq<Addr>, from: Addr, cf: seq<Addr>) {
    && IsChain(m0, to, ct) && IsChain(m0, from, cf) && InMem(m0, ct) && InMem(m0, cf) && Elems(ct) !! Elems(cf)
    && ExactTot(m0, ct) && ExactTot(m0, cf) && |Flat(m0, cf)| <= |Flat(m0, ct)|
  }

  /** The copy has come to a in the target and to b in the source. */
  ghost predicate CopyTodo(m0: Mem, to: Addr, ct: seq<Addr>, from: Addr, cf: seq<Addr>, m: Mem, a: Place, b: Place) {
    && CopyPair(m0, to, ct, from, cf) && CopySide(m0, to, ct, a) && CopySide(m0, from, cf, b)
    && PlacePos(m0, ct, a) == PlacePos(m0, cf, b) && CopiedUpTo(m0, ct, cf, m, PlacePos(m0, ct, a))
  }

  ghost predicate CopySide(m: Mem, h: Addr, c: seq<Addr>, a: Place) {
    && At(m, h, c, a.p, a.i)
    && if a.p == NULL then a.off == 0 else a.off == 0 || a.off < m[a.p].Len()
  }

  ghost function PlacePos(m: Mem, c: seq<Addr>, a: Place): nat
    requires InMem(m, c) && a.i <= |c|
  {
    Pos(m, c, a.i) + a.off
  }

  /** The lengths from a place on. */
  ghost function LensFrom(m: Mem, c: seq<Addr>, a: Place): seq<nat>
    requires InMem(m, c) && a.i <= |c|
  {
    assert forall x | x in c[a.i..] :: x in c;
    Lens(m, c[a.i..])
  }

  /** Before a round: the result is what the lengths from here on lead to. */
  ghost predicate CopyRun(m: Mem, ct: seq<Addr>, cf: seq<Addr>, a: Place, b: Place, result: Outcome)
    requires InMem(m, ct) && InMem(m, cf) && a.i <= |ct| && b.i <= |cf|
  {
    Goes(LensFrom(m, ct, a), a.off, LensFrom(m, cf, b), b.off, result)
  }

  /** Behind a round: the tests decide, or the copy goes on. */
  ghost predicate CopyDecided(m: Mem, ct: seq<Addr>, cf: seq<Addr>, a: Place, b: Place, result: Outcome)
    requires InMem(m, ct) && InMem(m, cf) && a.i <= |ct| && b.i <= |cf|
  {
    Decides(LensFrom(m, ct, a), a.off, LensFrom(m, cf, b), b.off, result)
  }

  lemma {:induction false} CopyStart(m0: Mem, to: Addr, ct: seq<Addr>, from: Addr, cf: seq<Addr>, result: Outcome)
    requires CopyPair(m0, to, ct, from, cf) && to != NULL && from != NULL && result == CopyResult(m0, ct, cf)
    ensures CopyTodo(m0, to, ct, from, cf, m0, Place(to, 0, 0), Place(from, 0, 0))
    ensures CopyRun(m0, ct, cf, Place(to, 0, 0), Place(from, 0, 0), result)
  {
    AtStart(m0, to, ct);
    AtStart(m0, from, cf);
    PosStep(m0, ct, 0);
    PosStep(m0, cf, 0);
    LensSum(m0, ct);
    LensSum(m0, cf);
    assert ct[0..] == ct && cf[0..] == cf;
    assert Flat(m0, cf)[..0] == [] && Splice(Flat(m0, ct), 0, []) == Flat(m0, ct);
  }

  lemma {:induction false} CopyReady(m0: Mem, to: Addr, ct: seq<Addr>, from: Addr, cf: seq<Addr>, m: Mem, a: Place,
                                     b: Place)
    requires CopyTodo(m0, to, ct, from, cf, m, a, b)
    ensures a.p != NULL ==>
        a.i < |ct| && a.p in m && a.p in m0 && a.off <= m[a.p].Len()
        && m[a.p] == m0[a.p].(data := m[a.p].data)
    ensures a.p != NULL ==> m[a.p].Len() == m0[a.p].Len()
    ensures b.p != NULL ==>
        b.i < |cf| && b.p in m && b.p in m0 && b.off <= m[b.p].Len() && m[b.p] == m0[b.p]
        && b.p != a.p
  {
    if b.p != NULL {
      assert b.p in Elems(cf) && b.p !in Elems(ct);
      if a.p != NULL { assert a.p in Elems(ct); }
    }
  }

  /** One side of a round: n bytes on, and to the next pbuf if that uses this one up. */
  ghost predicate Moves(m: Mem, a: Place, n: nat, a1: Place)
    requires a.p in m
  {
    a1 == if a.off + n >= m[a.p].Len() then Place(m[a.p].next, a.i + 1, 0) else Place(a.p, a.i, a.off + n)
  }

  lemma {:induction false} SideMoves(m: Mem, h: Addr, c: seq<Addr>, a: Place, n: nat, a1: Place)
    requires CopySide(m, h, c, a) && a.p != NULL && a.off + n <= m[a.p].Len() && Moves(m, a, n, a1)
    ensures CopySide(m, h, c, a1) && PlacePos(m, c, a1) == PlacePos(m, c, a) + n
    ensures Onward(LensFrom(m, c, a), a.off, n, LensFrom(m, c, a1), a1.off)
  {
    AtStep(m, h, c, a.p, a.i);
    SideLens(m, h, c, a);
  }

  lemma {:induction false} SideLens(m: Mem, h: Addr, c: seq<Addr>, a: Place)
    requires CopySide(m, h, c, a)
    ensures if a.p == NULL then LensFrom(m, c, a) == []
            else LensFrom(m, c, a) == [m[a.p].Len()] + LensFrom(m, c, Place(m[a.p].next, a.i + 1, 0)) && a.i < |c|
  {
    if a.p != NULL {
      assert c[a.i..][1..] == c[a.i + 1..];
    }
  }

  /** What the test for a queue of packets looks at. */
  lemma {:induction false} SideQueue(m: Mem, h: Addr, c: seq<Addr>, a: Place)
    requires CopySide(m, h, c, a) && a.p != NULL && ExactTot(m, c)
    ensures m[a.p].Len() == m[a.p].totLen && m[a.p].next != NULL <==> Queue(LensFrom(m, c, a))
  {
    var next := Place(m[a.p].next, a.i + 1, 0);
    RestLength(m, h, c, a.p, a.i);
    AtStep(m, h, c, a.p, a.i);
    SideLens(m, h, c, a);
    SideLens(m, h, c, next);
    PosStep(m, c, a.i + 1);
    assert forall x | x in c[a.i + 1..] :: x in c;
    LensSum(m, c[a.i + 1..]);
    FlatSplit(m, c, a.i);
    assert LensFrom(m, c, a)[1..] == LensFrom(m, c, next);
  }

  /** A round keeps what the copy has done and what its result will be. */
  lemma {:induction false} CopyRounded(m0: Mem, to: Addr, ct: seq<Addr>, from: Addr, cf: seq<Addr>, m: Mem, a: Place,
                                       b: Place, n: nat, m1: Mem, a1: Place, b1: Place, result: Outcome)
    requires CopyTodo(m0, to, ct, from, cf, m, a, b) && CopyRun(m0, ct, cf, a, b, result) && a.p != NULL && b.p != NULL
    requires a.p in m && b.p in m && a.off + n <= m[a.p].Len() && b.off + n <= m[b.p].Len()
    requires a.off + n == m[a.p].Len() || b.off + n == m[b.p].Len()
    requires m1 == m[a.p := Poke(m[a.p], a.off, m[b.p].data[b.off..b.off + n])]
    requires Moves(m1, a, n, a1) && Moves(m1, b, n, b1)
    ensures CopyTodo(m0, to, ct, from, cf, m1, a1, b1) && CopyDecided(m0, ct, cf, a1, b1, result)
  {
    CopyReady(m0, to, ct, from, cf, m, a, b);
    assert Moves(m0, a, n, a1) && Moves(m0, b, n, b1);
    CopyIteration(m0, to, ct, from, cf, m, a, b, n, a1, b1);
    assert CopyDecided(m0, ct, cf, a1, b1, result) by {
      var t, f := LensFrom(m0, ct, a), LensFrom(m0, cf, b);
      assert t[0] == m[a.p].Len() by { SideLens(m0, to, ct, a); }
      assert f[0] == m[b.p].Len() by { SideLens(m0, from, cf, b); }
      RoundDecides(t, a.off, f, b.off, n, LensFrom(m0, ct, a1), a1.off, LensFrom(m0, cf, b1), b1.off, result);
    }
  }

  lemma {:induction false} CopyIteration(m0: Mem, to: Addr, ct: seq<Addr>, from: Addr, cf: seq<Addr>, m: Mem,
                                         a: Place, b: Place, n: nat, a1: Place, b1: Place)
    requires CopyTodo(m0, to, ct, from, cf, m, a, b) && a.p != NULL && b.p != NULL
    requires a.p in m && m[a.p].Len() == m0[a.p].Len() && a.off + n <= m0[a.p].Len() && b.off + n <= m0[b.p].Len()
    requires Moves(m0, a, n, a1) && Moves(m0, b, n, b1)
    ensures Onward(LensFrom(m0, ct, a), a.off, n, LensFrom(m0, ct, a1), a1.off)
    ensures Onward(LensFrom(m0, cf, b), b.off, n, LensFrom(m0, cf, b1), b1.off)
    ensures CopyTodo(m0, to, ct, from, cf, m[a.p := Poke(m[a.p], a.off, m0[b.p].data[b.off..b.off + n])], a1, b1)
  {
    SideMoves(m0, to, ct, a, n, a1);
    SideMoves(m0, from, cf, b, n, b1);
    CopyBlock(m0, to, ct, from, cf, m, a, b, n);
  }

  /** The block copied extends the copied prefix. */
  lemma {:induction false} CopyBlock(m0: Mem, to: Addr, ct: seq<Addr>, from: Addr, cf: seq<Addr>, m: Mem, a: Place,
                                     b: Place, n: nat)
    requires CopyTodo(m0, to, ct, from, cf, m, a, b) && a.p != NULL && b.p != NULL
    requires a.p in m && a.off + n <= m[a.p].Len() && b.off + n <= m0[b.p].Len()
    ensures CopiedUpTo(m0, ct, cf, m[a.p := Poke(m[a.p], a.off, m0[b.p].data[b.off..b.off + n])],
        PlacePos(m0, ct, a) + n)
  {
    var all, k := Flat(m0, cf), PlacePos(m0, ct, a);
    PosStep(m0, cf, b.i);
    assert all[..k] + m0[b.p].data[b.off..b.off + n] == all[..k + n] by {
      Extend(all, 0, k, Pos(m0, cf, b.i), Pos(m0, cf, b.i + 1), b.off, n);
      assert all[..k] == all[0..k] && all[..k + n] == all[0..k + n];
    }
    WriteMore(m0, m, to, ct, a.i, a.off, 0, all[..k], m0[b.p].data[b.off..b.off + n]);
  }

  /** What the tests behind a round mean for the result. */
  lemma {:induction false} CopyExits(m0: Mem, to: Addr, ct: seq<Addr>, from: Addr, cf: seq<Addr>, m: Mem, a: Place,
                                     b: Place, result: Outcome)
    requires CopyTodo(m0, to, ct, from, cf, m, a, b) && CopyDecided(m0, ct, cf, a, b, result)
    ensures a.p != NULL ==> a.p in m
    ensures b.p != NULL ==> b.p in m
    ensures CopiedUpTo(m0, ct, cf, m, PlacePos(m0, ct, a))
    ensures b.p == NULL ==> PlacePos(m0, ct, a) == |Flat(m0, cf)|
    ensures if a.p == NULL && b.p != NULL then result == TooSmall
            else if b.p != NULL && m[b.p].Len() == m[b.p].totLen && m[b.p].next != NULL then result == TwoPackets
            else if a.p != NULL && m[a.p].Len() == m[a.p].totLen && m[a.p].next != NULL then result == TwoPackets
            else if b.p == NULL then result == Done
            else CopyRun(m0, ct, cf, a, b, result)
  {
    CopyReady(m0, to, ct, from, cf, m, a, b);
    SideLens(m0, to, ct, a);
    SideLens(m0, from, cf, b);
    if a.p != NULL { SideQueue(m0, to, ct, a); }
    if b.p != NULL { SideQueue(m0, from, cf, b); } else { PosStep(m0, cf, b.i); }
  }

  lemma {:induction false} CopyTotals(m: Mem, h: Addr, c: seq<Addr>)
    requires IsChain(m, h, c) && InMem(m, c) && ExactTot(m, c)
    ensures h != NULL ==> h in m && m[h].totLen == |Flat(m, c)|
  {
  }

  // ---------- pbuf_memcmp, pbuf_memfind ----------

  /** The part of pbuf_memcmp's answer that tells where two strings first differ. */
  ghost predicate FirstDiff(a: seq<byte>, b: seq<byte>, k: nat) {
    k < |a| && k < |b| && a[..k] == b[..k] && a[k] != b[k]
  }

  /** The answer of comparing the bytes `all`, from an offset on, with s: 0xFFFF if there are too
    * few, 0 if they are equal, else one more than the first differing index, in 16 bits. */
  ghost predicate Compared(all: seq<byte>, offset: nat, s: seq<byte>, r: u16) {
    if |all| < offset + |s| then r == 0xFFFF
    else
      && (r == 0 <==> all[offset..offset + |s|] == s)
      && (r != 0 ==> exists k: nat :: FirstDiff(all[offset..], s, k) && r == Min(k + 1, 0xFFFF))
  }

  lemma {:induction false} ComparedHow(all: seq<byte>, offset: nat, s: seq<byte>, k: nat)
    requires offset + |s| <= |all| && k <= |s| && all[offset..][..k] == s[..k]
    ensures k == |s| ==> Compared(all, offset, s, 0)
    ensures k < |s| && all[offset + k] != s[k] ==> Compared(all, offset, s, Min(k + 1, 0xFFFF))
  {
    assert all[offset..][..|s|] == all[offset..offset + |s|];
    if k < |s| && all[offset + k] != s[k] {
      assert FirstDiff(all[offset..], s, k);
      assert all[offset..offset + |s|][k] != s[k];
    }
  }

  /** pbuf_memcmp, byte by byte. */
  method Memcmp(heap: PbufHeap, p: Addr, offset: u16, s: seq<byte>, ghost c: seq<Addr>) returns (r: u16)
    requires IsChain(heap.mem, p, c) && p != NULL && InMem(heap.mem, c) && ExactTot(heap.mem, c) && |s| < U16
    ensures Compared(Flat(heap.mem, c), offset, s, r)
  {
    CopyTotals(heap.mem, p, c);
    ghost var all := Flat(heap.mem, c);
    if heap.mem[p].totLen < offset + |s| {
      return 0xFFFF;
    }
    var q, start;
    ghost var j;
    q, start, j := Skip(heap, p, offset, c);
    SkipRest(heap.mem, p, c, q, j);
    ghost var rest := c[j..];
    assert |all| >= offset + |s| && Flat(heap.mem, rest)[start..] == all[offset..];
    var i := 0;
    while i < |s|
      invariant i <= |s| && all[offset..][..i] == s[..i]
    {
      var a := TryGetAt(heap, q, start + i, rest);
      SameByte(Flat(heap.mem, rest), start, all, offset, i);
      ComparedHow(all, offset, s, i);
      if a != s[i] as int {
        return Min(i + 1, 0xFFFF);
      }
      i := i + 1;
    }
    ComparedHow(all, offset, s, |s|);
    r := 0;
  }

  lemma {:induction false} SameByte(a: seq<byte>, i: nat, b: seq<byte>, j: nat, k: nat)
    requires i <= |a| && j + k < |b| && a[i..] == b[j..]
    ensures i + k < |a| && a[i + k] == b[j + k]
  {
    assert a[i..][k] == b[j..][k];
  }

  lemma {:induction false} SkipRest(m: Mem, h: Addr, c: seq<Addr>, q: Addr, j: nat)
    requires At(m, h, c, q, j)
    ensures Pos(m, c, j) <= |Flat(m, c)|
    ensures IsChain(m, q, c[j..]) && InMem(m, c[j..]) && Flat(m, c[j..]) == Flat(m, c)[Pos(m, c, j)..]
  {
    PosStep(m, c, j);
    ChainSuffix(m, h, c, j);
    ChainInMem(m, q, c[j..]);
    assert c == c[..j] + c[j..] && forall a | a in c[..j] :: a in c;
    FlatConcat(m, c[..j], c[j..]);
  }

  ghost predicate Matches(all: seq<byte>, s: seq<byte>, k: nat) {
    k + |s| <= |all| && all[k..k + |s|] == s
  }

  lemma {:induction false} EmptyMatches(all: seq<byte>, s: seq<byte>, k: nat)
    ensures |s| == 0 && k <= |all| ==> Matches(all, s, k)
  {
  }

  /** pbuf_memfind: the least match from an offset on, or 0xFFFF. */
  method Memfind(heap: PbufHeap, p: Addr, s: seq<byte>, start: u16, ghost c: seq<Addr>) returns (r: u16)
    requires IsChain(heap.mem, p, c) && p != NULL && InMem(heap.mem, c) && ExactTot(heap.mem, c) && |s| < U16
    ensures (exists k :: start <= k && Matches(Flat(heap.mem, c), s, k)) ==>
              start <= r && Matches(Flat(heap.mem, c), s, r)
              && forall k :: start <= k < r ==> !Matches(Flat(heap.mem, c), s, k)
    ensures (forall k :: start <= k ==> !Matches(Flat(heap.mem, c), s, k)) ==> r == 0xFFFF
  {
    CopyTotals(heap.mem, p, c);
    ghost var all := Flat(heap.mem, c);
    var maxCmpStart := (heap.mem[p].totLen - |s|) % U16;
    if heap.mem[p].totLen >= |s| + start {
      var i: u16 := start;
      while i <= maxCmpStart
        invariant start <= i <= maxCmpStart + 1 && forall k :: start <= k < i ==> !Matches(all, s, k)
        decreases maxCmpStart - i
      {
        var plus := Memcmp(heap, p, i, s, c);
        assert plus == 0 <==> Matches(all, s, i);
        if plus == 0 {
          return i;
        }
        EmptyMatches(all, s, i);
        i := i + 1;
      }
    }
    r := 0xFFFF;
  }
}
