/** The allocator of core/mem.c: headers at offsets, linked both ways, and the lowest-free cache,
  * proved to do to memory what HeapLayout says about the row of blocks. */
module Heap {
  import opened Words
  import opened HeapLayout

  /** `struct mem`. */
  datatype Header = Header(next: nat, prev: nat, used: bool)

  type Headers = map<nat, Header>

  /** A pointer handed in or out, as an offset into the heap memory. */
  datatype Ptr = Null | At(off: int)

  // ---------- what headers say about blocks ----------

  ghost predicate Linked(g: Config, m: Headers, s: Layout, i: nat)
    requires i < |s|
  {
    s[i].off in m && m[s[i].off] == Header(End(g, s[i]), if i == 0 then 0 else s[i - 1].off, s[i].used)
  }

  /** The headers link the blocks of s, in front of the end marker. */
  ghost predicate Links(g: Config, m: Headers, s: Layout) {
    && g.memSize in m && m[g.memSize] == Header(g.memSize, g.memSize, true)
    && forall i {:trigger Linked(g, m, s, i)} | 0 <= i < |s| :: Linked(g, m, s, i)
  }

  /** What is said of block i in the middle of plug_holes and mem_trim: the neighbours' view. */
  lemma {:induction false} Neighbours(g: Config, m: Headers, s: Layout, i: nat)
    requires Tiles(g, s) && Links(g, m, s) && i < |s|
    ensures s[i].off in m && m[s[i].off].next == Off(g, s, i + 1)
        && m[s[i].off].prev == (if i == 0 then 0 else s[i - 1].off)
    ensures m[s[i].off].used == s[i].used && s[i].off < Off(g, s, i + 1) <= g.memSize
    ensures Off(g, s, i + 1) in m && (Off(g, s, i + 1) == g.memSize <==> i + 1 == |s|)
    ensures i + 1 < |s| ==> m[s[i + 1].off].prev == s[i].off && m[s[i + 1].off].used == s[i + 1].used
    ensures i + 1 < |s| ==> m[s[i + 1].off].next == Off(g, s, i + 2) && Off(g, s, i + 2) in m
    ensures i + 1 < |s| ==> s[i + 1].off < Off(g, s, i + 2) && (Off(g, s, i + 2) == g.memSize <==> i + 2 == |s|)
    ensures i > 0 ==>
        s[i - 1].off in m && m[s[i - 1].off].next == s[i].off && m[s[i - 1].off].used == s[i - 1].used
        && s[i - 1].off < s[i].off
  {
    assert Linked(g, m, s, i) && GoodBlock(g, s, i);
    Ordered(g, s, i, |s|);
    if i > 0 {
      assert Linked(g, m, s, i - 1) && GoodBlock(g, s, i - 1);
    }
    if i + 1 < |s| {
      assert Linked(g, m, s, i + 1) && GoodBlock(g, s, i + 1);
      Ordered(g, s, i + 1, |s|);
      if i + 2 < |s| {
        assert Linked(g, m, s, i + 2) && GoodBlock(g, s, i + 2);
        Ordered(g, s, i + 2, |s|);
      }
    }
  }

  /** Offsets tell blocks apart. */
  lemma {:induction false} OffInjective(g: Config, s: Layout, i: nat, j: nat)
    requires Tiles(g, s) && i < |s| && j < |s|
    ensures s[i].off == s[j].off <==> i == j
    ensures s[i].off < s[j].off <==> i < j
    ensures s[i].off < g.memSize
  {
    if i < j {
      Ordered(g, s, i, j);
    } else if j < i {
      Ordered(g, s, j, i);
    }
    Ordered(g, s, i, |s|);
  }

  ghost predicate SameHeader(m: Headers, n: Headers, a: nat) {
    a in m ==> a in n && n[a] == m[a]
  }

  /** The header changes that replace the blocks i..j by one or two others: their own headers, and
    * the back link of the block behind. Nothing else changes. */
  ghost predicate Relinked(g: Config, m: Headers, n: Headers, s: Layout, i: nat, j: nat, mid: Layout)
    requires i < j <= |s| && 1 <= |mid| <= 2
  {
    var last := mid[|mid| - 1];
    && mid[0].off in n && n[mid[0].off] == Header(End(g, mid[0]), if i == 0 then 0 else s[i - 1].off, mid[0].used)
    && (|mid| == 2 ==> last.off in n && n[last.off] == Header(End(g, last), mid[0].off, last.used))
    && (j < |s| ==> s[j].off in m && s[j].off in n && n[s[j].off] == m[s[j].off].(prev := last.off))
    && forall a {:trigger SameHeader(m, n, a)} | a != mid[0].off && a != last.off && a != Off(g, s, j) ::
       SameHeader(m, n, a)
  }

  lemma {:induction false} RelinkedLinks(g: Config, m: Headers, n: Headers, s: Layout, i: nat, j: nat, mid: Layout)
    requires Tiles(g, s) && Links(g, m, s) && Covers(g, s, i, j, mid) && |mid| <= 2
    requires Relinked(g, m, n, s, i, j, mid) && (j == |s| ==> SameHeader(m, n, g.memSize))
    ensures Tiles(g, Replace(s, i, j, mid)) && Links(g, n, Replace(s, i, j, mid))
  {
    var t, last := Replace(s, i, j, mid), mid[|mid| - 1];
    ReplaceTiles(g, s, i, j, mid);
    assert t[i] == mid[0] && t[i + |mid| - 1] == last;
    OffInjective(g, t, i, i);
    OffInjective(g, t, i + |mid| - 1, i);
    forall k | 0 <= k < |t| ensures Linked(g, n, t, k) {
      OffInjective(g, t, k, i);
      OffInjective(g, t, k, i + |mid| - 1);
      if k < i {
        assert Linked(g, m, s, k);
        OffBelow(g, s, k, j);
        assert SameHeader(m, n, t[k].off);
      } else if k >= i + |mid| {
        var l := k - |mid| - i + j;
        assert t[k] == s[l] && Linked(g, m, s, l);
        OffInjective(g, s, l, j);
        if l > j {
          assert SameHeader(m, n, t[k].off);
        }
      }
    }
    if j < |s| {
      OffInjective(g, s, j, j);
    }
    assert SameHeader(m, n, g.memSize);
  }

  lemma {:induction false} OffBelow(g: Config, s: Layout, i: nat, j: nat)
    requires Tiles(g, s) && i < j <= |s|
    ensures s[i].off < Off(g, s, j)
  {
    Ordered(g, s, i, j);
  }

  // ---------- bytes ----------

  ghost predicate InHeader(g: Config, s: Layout, k: nat) {
    exists i :: 0 <= i < |s| && s[i].off <= k < s[i].off + g.hdr
  }

  /** Memory a has become memory b by writing headers of blocks of s and t only. */
  ghost predicate OnlyHeaders(g: Config, s: Layout, t: Layout, a: seq<byte>, b: seq<byte>) {
    |b| == |a| && forall k {:trigger b[k]} | 0 <= k < |a| :: b[k] == a[k] || InHeader(g, s, k) || InHeader(g, t, k)
  }

  /** The first len data bytes of the block at off are the same in both memories. */
  ghost predicate Kept(g: Config, a: seq<byte>, b: seq<byte>, off: nat, len: nat) {
    off + g.hdr + len <= |a| == |b| && a[off + g.hdr..off + g.hdr + len] == b[off + g.hdr..off + g.hdr + len]
  }

  /** No operation disturbs the bytes of a block that is live before and after it. */
  ghost predicate Undisturbed(g: Config, s: Layout, t: Layout, a: seq<byte>, b: seq<byte>) {
    forall x, y {:trigger x in Live(s), y in Live(t)} | x in Live(s) && y in Live(t) && x.off == y.off ::
        Kept(g, a, b, x.off, Min(x.len, y.len))
  }

  lemma {:induction false} DataNotHeader(g: Config, s: Layout, b: Block, k: nat)
    requires Tiles(g, s) && b in s && b.off + g.hdr <= k < End(g, b)
    ensures !InHeader(g, s, k)
  {
    if i :| 0 <= i < |s| && s[i].off <= k < s[i].off + g.hdr {
      BlocksDisjoint(g, s, s[i], b);
    }
  }

  lemma {:induction false} HeadersOnlyKeep(g: Config, s: Layout, t: Layout, a: seq<byte>, b: seq<byte>)
    requires Tiles(g, s) && Tiles(g, t) && OnlyHeaders(g, s, t, a, b) && |a| >= g.memSize
    ensures Undisturbed(g, s, t, a, b)
  {
    forall x, y | x in Live(s) && y in Live(t) && x.off == y.off ensures Kept(g, a, b, x.off, Min(x.len, y.len)) {
      BlocksDisjoint(g, s, x, x);
      var lo, hi := x.off + g.hdr, x.off + g.hdr + Min(x.len, y.len);
      forall k | lo <= k < hi ensures a[k] == b[k] {
        DataNotHeader(g, s, x, k);
        DataNotHeader(g, t, y, k);
      }
    }
  }

  // ---------- the lowest free block ----------

  lemma {:induction false} LowestIs(g: Config, s: Layout, r: nat)
    requires r <= |s| && (r < |s| ==> !s[r].used) && forall k {:trigger s[k]} | 0 <= k < r :: s[k].used
    ensures LowestFree(g, s) == Off(g, s, r)
  {
    FirstFitUnique(s, 0, r);
  }

  /** Replacing the blocks i..j by a row that starts with a free block moves the lowest free offset
    * to the start of that row, unless it was lower. */
  lemma {:induction false} LowestFreed(g: Config, s: Layout, i: nat, j: nat, mid: Layout)
    requires Tiles(g, s) && Covers(g, s, i, j, mid) && !mid[0].used
    ensures LowestFree(g, Replace(s, i, j, mid)) == Min(LowestFree(g, s), s[i].off)
  {
    var f, t := FirstFit(s, 0, 0), Replace(s, i, j, mid);
    var r := if f < i then f else i;
    assert t[i] == mid[0];
    LowestIs(g, t, r);
    if f < i {
      OffInjective(g, s, f, i);
    } else if f < |s| {
      OffInjective(g, s, i, f);
    } else {
      OffInjective(g, s, i, i);
    }
  }

  class MemHeap {
    const g: Config
    const ram: array<byte>
    var mem: Headers
    var lfree: nat
    ghost var blocks: Layout
    /** The headers that belong to no block any more and whose bytes nobody has written since: no later header
      * overlaps them, and they have not lain in a block handed out. */
    ghost var stale: set<nat>

    ghost predicate Shaped()
      reads this
    {
      && ram.Length == g.memSize + g.hdr && Tiles(g, blocks) && Links(g, mem, blocks)
      && Known(g, mem, blocks, stale)
    }

    ghost predicate Valid()
      reads this
    {
      Shaped() && Coalesced(blocks) && lfree == LowestFree(g, blocks)
    }

    /** mem_init: one free block and the end marker. */
    constructor (g: Config)
      requires g.Ok()
      ensures this.g == g && Valid() && blocks == Initial(g) && fresh(ram)
    {
      this.g := g;
      this.ram := new byte[g.memSize + g.hdr](_ => 0);
      this.mem := map[0 := Header(g.memSize, 0, false), g.memSize := Header(g.memSize, g.memSize, true)];
      this.lfree := 0;
      this.blocks := Initial(g);
      this.stale := {};
      new;
      InitialGood(g);
      assert Linked(g, mem, blocks, 0);
      LowestIs(g, blocks, 0);
    }

    /** Writes header fields: the bytes the header lies in become anything. */
    method SetHeader(p: nat, h: Header, ghost s: Layout, ghost t: Layout, ghost a: seq<byte>)
      requires p + g.hdr <= ram.Length
      requires HeaderAt(s, p) || HeaderAt(t, p)
      requires OnlyHeaders(g, s, t, a, ram[..])
      modifies this`mem, this`stale, ram
      ensures mem == old(mem)[p := h] && OnlyHeaders(g, s, t, a, ram[..])
      ensures stale == Spared(g, old(stale), p)
    {
      mem := mem[p := h];
      stale := Spared(g, stale, p);
      var k := p;
      while k < p + g.hdr
        invariant mem == old(mem)[p := h] && stale == Spared(g, old(stale), p)
        invariant p <= k <= p + g.hdr && OnlyHeaders(g, s, t, a, ram[..])
      {
        if HeaderAt(s, p) {
          InHeaderAt(g, s, p, k);
        } else {
          InHeaderAt(g, t, p, k);
        }
        ram[k] := *;
        k := k + 1;
      }
    }
  
    /** One half of plug_holes: the free block at hi is united with the free block at lo in front of
      * it. The offsets of all headers written are in s. */
    method Merge(lo: nat, hi: nat, ghost i: nat, ghost s: Layout, ghost a: seq<byte>)
      requires Shaped() && lfree == LowestFree(g, blocks)
      requires i + 1 < |blocks| && lo == blocks[i].off && hi == blocks[i + 1].off && !blocks[i].used
          && !blocks[i + 1].used
      requires End(g, blocks[i]) == blocks[i + 1].off
      requires HeadersIn(blocks, s) && OnlyHeaders(g, s, [], a, ram[..])
      modifies this`mem, this`lfree, this`blocks, this`stale, ram
      ensures Shaped() && lfree == LowestFree(g, blocks) && old(lfree) <= lo
      ensures blocks == Merged(g, old(blocks), i) && HeadersIn(blocks, s) && OnlyHeaders(g, s, [], a, ram[..])
      ensures UseKept(old(mem), mem) && stale == old(stale) + {hi}
    {
      ghost var b0, m0, k0 := blocks, mem, stale;
      Neighbours(g, mem, blocks, i);
      if lfree == hi {
        lfree := lo;
      }
      LowestBelow(g, blocks, i);
      WriteMerge(lo, hi, i, s, a);
      MergeGood(g, m0, mem, b0, i);
      KnownMerged(g, m0, mem, b0, i, k0);
      blocks := Merged(g, b0, i);
      stale := stale + {hi};
      MergedHeaders(g, b0, i, s);
    }

    method WriteMerge(lo: nat, hi: nat, ghost i: nat, ghost s: Layout, ghost a: seq<byte>)
      requires Shaped() && i + 1 < |blocks| && lo == blocks[i].off && hi == blocks[i + 1].off
      requires HeadersIn(blocks, s) && OnlyHeaders(g, s, [], a, ram[..])
      modifies this`mem, this`stale, ram
      ensures lo in old(mem) && (i + 2 < |blocks| ==> blocks[i + 2].off in old(mem) && lo != blocks[i + 2].off)
      ensures mem == MergedLinks(g, old(mem), blocks, i) && stale == old(stale)
      ensures OnlyHeaders(g, s, [], a, ram[..]) && UseKept(old(mem), mem)
    {
      Neighbours(g, mem, blocks, i);
      SparedAll(g, mem, blocks, stale, i);
      SparedAll(g, mem, blocks, stale, i + 2);
      var next := mem[hi].next;
      HeaderBounds(g, blocks, i);
      SetHeader(lo, mem[lo].(next := next), s, [], a);
      if next != g.memSize {
        HeaderBounds(g, blocks, i + 2);
        SetHeader(next, mem[next].(prev := lo), s, [], a);
      }
    }

    /** plug_holes, on a block just marked free. */
    method PlugHoles(p: nat, ghost i: nat, ghost s: Layout, ghost a: seq<byte>)
      requires Shaped() && lfree == LowestFree(g, blocks)
      requires i < |blocks| && p == blocks[i].off && !blocks[i].used && Adjacent(g, blocks, i)
      requires HeadersIn(blocks, s) && OnlyHeaders(g, s, [], a, ram[..])
      modifies this`mem, this`lfree, this`blocks, this`stale, ram
      ensures Shaped() && lfree == LowestFree(g, blocks)
      ensures blocks == Release(g, old(blocks), i) && OnlyHeaders(g, s, [], a, ram[..])
      ensures UseKept(old(mem), mem) && (HeaderAt(blocks, p) || p in stale)
    {
      ghost var b0 := blocks;
      Neighbours(g, mem, blocks, i);
      var nmem := mem[p].next;
      if p != nmem && !mem[nmem].used && nmem != g.memSize {
        Merge(p, nmem, i, s, a);
      }
      Neighbours(g, mem, blocks, i);
      assert HeaderAt(blocks, p) by { assert blocks[i].off == p; }
      PlugBack(p, i, b0, s, a);
    }

    /** The other half, when the successor of block i of b0 has been united with it. */
    method PlugBack(p: nat, ghost i: nat, ghost b0: Layout, ghost s: Layout, ghost a: seq<byte>)
      requires Shaped() && lfree == LowestFree(g, blocks) && Tiles(g, b0) && i < |b0| && !b0[i].used
      requires Adjacent(g, b0, i) && i < |blocks| && p == blocks[i].off && !blocks[i].used && HeaderAt(blocks, p)
      requires blocks == if i + 1 < |b0| && !b0[i + 1].used then Merged(g, b0, i) else b0
      requires HeadersIn(blocks, s) && OnlyHeaders(g, s, [], a, ram[..])
      modifies this`mem, this`lfree, this`blocks, this`stale, ram
      ensures Shaped() && lfree == LowestFree(g, blocks)
      ensures blocks == Release(g, b0, i) && OnlyHeaders(g, s, [], a, ram[..])
      ensures UseKept(old(mem), mem) && (HeaderAt(blocks, p) || p in stale)
    {
      ForwardThenBack(g, b0, i);
      Neighbours(g, mem, blocks, i);
      var pmem := mem[p].prev;
      if pmem != p && !mem[pmem].used {
        Merge(pmem, p, i - 1, s, a);
      }
    }

    /** mem_link_valid. */
    method LinkValid(p: nat, ghost i: nat) returns (ok: bool)
      requires Shaped() && i < |blocks| && p == blocks[i].off
      ensures ok
    {
      Neighbours(g, mem, blocks, i);
      var next, prev := mem[p].next, mem[p].prev;
      ok := !(next > g.memSize || prev > g.memSize || (prev != p && mem[prev].next != p)
        || (next != g.memSize && mem[next].prev != p));
    }

    /** What mem_free finds in front of a pointer: the header of some block, allocated or not, or one that
      * is still there although its block has been united with another one. */
    ghost predicate Readable(p: int)
      reads this
    {
      p >= 0 && (HeaderAt(blocks, p) || p in stale)
    }

    ghost predicate ReadsFree(p: int)
      reads this
    {
      p in mem && !mem[p].used
    }

    /** The pointer passes the first checks of mem_free. */
    predicate InRange(rmem: Ptr)
      requires g.align > 0
    {
      rmem.At? && rmem.off % g.align == 0 && 0 <= rmem.off - g.hdr && rmem.off + g.minSize <= g.memSize
    }

    /** mem_free. The pointer must be NULL, misaligned, out of range, or lie behind such a header; only an
      * allocated block is freed. Its header then reads as free, so that a second mem_free is rejected. */
    method Free(rmem: Ptr)
      requires Valid()
      requires InRange(rmem) ==> Readable(rmem.off - g.hdr)
      modifies this`mem, this`lfree, this`blocks, this`stale, ram
      ensures Valid() && WellFormed(g, old(blocks))
      ensures blocks == if rmem.At? && rmem.off >= g.hdr then Step(g, old(blocks), Call.Free(rmem.off - g.hdr))
          else old(blocks)
      ensures Undisturbed(g, old(blocks), blocks, old(ram[..]), ram[..])
      ensures InRange(rmem) ==> Readable(rmem.off - g.hdr) && ReadsFree(rmem.off - g.hdr)
      ensures InRange(rmem) && old(ReadsFree(rmem.off - g.hdr)) ==> blocks == old(blocks)
    {
      ghost var s, a, m0 := blocks, ram[..], mem;
      HeadersOnlyKeep(g, s, s, a, a);
      if rmem.Null? {
        return;
      }
      if rmem.off % g.align != 0 {
        FreeNothing(g, s, rmem.off);
        return;
      }
      var p := rmem.off - g.hdr;
      if p < 0 || rmem.off + g.minSize > g.memSize {
        FreeNothing(g, s, rmem.off);
        return;
      }
      ghost var i := FindBlock(p);
      if !mem[p].used {
        return;
      }
      var valid := LinkValid(p, i);
      if !valid {
        return;
      }
      FreeBlock(p, i);
    }

    /** The block a readable header belongs to; none for one that is left over. */
    ghost method FindBlock(p: nat) returns (i: nat)
      requires Valid() && Readable(p)
      ensures p in mem && i == Find(blocks, p, 0) && i <= |blocks|
      ensures i < |blocks| ==> blocks[i].off == p && blocks[i].used == mem[p].used
      ensures i == |blocks| ==> !mem[p].used
    {
      i := Find(blocks, p, 0);
      if HeaderAt(blocks, p) {
        var k :| 0 <= k < |blocks| && blocks[k].off == p;
        Neighbours(g, mem, blocks, k);
        FindIs(g, blocks, k);
      }
    }

    /** The same block freed twice: the second mem_free has no effect. */
    method FreeTwice(rmem: Ptr)
      requires Valid() && InRange(rmem) && HeaderAt(blocks, rmem.off - g.hdr)
      modifies this`mem, this`lfree, this`blocks, this`stale, ram
      ensures Valid() && WellFormed(g, old(blocks)) && blocks == Step(g, old(blocks), Call.Free(rmem.off - g.hdr))
    {
      Free(rmem);
      Free(rmem);
    }

    /** The part of mem_free behind the checks. */
    method FreeBlock(p: nat, ghost i: nat)
      requires Valid() && i < |blocks| && p == blocks[i].off && blocks[i].used
      modifies this`mem, this`lfree, this`blocks, this`stale, ram
      ensures Valid() && Adjacent(g, old(blocks), i) && blocks == Release(g, old(blocks), i)
      ensures Readable(p) && ReadsFree(p)
      ensures Undisturbed(g, old(blocks), blocks, old(ram[..]), ram[..])
    {
      ghost var s, a := blocks, ram[..];
      Neighbours(g, mem, blocks, i);
      SparedAll(g, mem, s, stale, i);
      KnownFree(g, mem, s, i, stale);
      ReleaseGood(g, s, i);
      MarkFree(g, mem, s, i);
      SetHeader(p, mem[p].(used := false), s, [], a);
      if p < lfree {
        lfree := p;
      }
      blocks := s[i := s[i].(used := false)];
      PlugHoles(p, i, s, a);
      HeadersOnlyKeep2(g, s, blocks, a, ram[..]);
    }

    /** The rounding mem_malloc and mem_trim start with: alignment cast to mem_size_t, then the
      * minimum size. */
    method RoundUp(x: nat) returns (size: nat)
      requires g.Ok()
      ensures size == g.Rounded(x)
    {
      size := g.AlignUp(x) % g.width;
      if size < g.minSize {
        size := g.minSize;
      }
    }

    /** mem_malloc. */
    method Malloc(sizeIn: nat) returns (r: Ptr)
      requires Valid() && sizeIn < g.width
      modifies this`mem, this`lfree, this`blocks, this`stale, ram
      ensures Valid() && WellFormed(g, old(blocks)) && blocks == Step(g, old(blocks), Call.Malloc(sizeIn))
      ensures Allocated(g, old(blocks), blocks, sizeIn, r)
      ensures Undisturbed(g, old(blocks), blocks, old(ram[..]), ram[..])
    {
      ghost var s, a := blocks, ram[..];
      HeadersOnlyKeep(g, s, s, a, a);
      NotAllocated(g, s, sizeIn);
      if sizeIn == 0 {
        return Null;
      }
      var size := RoundUp(sizeIn);
      if size > g.memSize || size < sizeIn {
        return Null;
      }
      RoundedIs(g, sizeIn);
      var ptr, found;
      ghost var j;
      ptr, found, j := FindFit(size);
      if found {
        AllocatedThere(g, s, sizeIn, j);
        r := AllocateAt(ptr, size, j);
      } else {
        r := Null;
      }
    }

    /** The scan of mem_malloc: from the lowest free block, up to size bytes before the end. */
    method FindFit(size: nat) returns (ptr: nat, found: bool, ghost j: nat)
      requires Valid() && size <= g.memSize
      ensures j == FirstFit(blocks, size, 0) && (found <==> j < |blocks|) && (found ==> ptr == blocks[j].off)
    {
      ptr, found, j := lfree, false, FirstFit(blocks, 0, 0);
      while ptr < g.memSize - size
        invariant j <= |blocks| && ptr == Off(g, blocks, j)
        invariant forall k {:trigger blocks[k]} | 0 <= k < j :: !FreeFor(blocks[k], size)
        decreases |blocks| - j
      {
        Neighbours(g, mem, blocks, j);
        TilesAdjacent(g, blocks, j);
        if !mem[ptr].used && mem[ptr].next - (ptr + g.hdr) >= size {
          FirstFitUnique(blocks, size, j);
          found := true;
          return;
        }
        ptr := mem[ptr].next;
        j := j + 1;
      }
      NoneFits(g, blocks, size, j);
      j := |blocks|;
    }

    /** The part of mem_malloc that takes a block it has found: splits it if the rest can hold a
      * block, and moves the lowest-free pointer on if it pointed there. */
    method AllocateAt(ptr: nat, size: nat, ghost i: nat) returns (r: Ptr)
      requires Valid() && i < |blocks| && ptr == blocks[i].off && FreeFor(blocks[i], size)
      requires g.Aligned(size) && size >= g.minSize
      modifies this`mem, this`lfree, this`blocks, this`stale, ram
      ensures Valid() && Adjacent(g, old(blocks), i) && blocks == Alloc(g, old(blocks), i, size) && r == At(ptr + g.hdr)
      ensures Undisturbed(g, old(blocks), blocks, old(ram[..]), ram[..])
    {
      ghost var s, a := blocks, ram[..];
      Neighbours(g, mem, s, i);
      AllocGood(g, s, i, size);
      HeaderBounds(g, s, i);
      if mem[ptr].next - (ptr + g.hdr) >= size + g.hdr + g.minSize {
        SuccessorUsed(s, i);
        Split(ptr, mem[ptr].next, size, i, i + 1);
      } else {
        UseLinks(g, mem, s, i);
        SparedAll(g, mem, s, stale, i);
        KnownUsed(g, mem, s, i, stale);
        SetHeader(ptr, mem[ptr].(used := true), s, [], a);
        blocks := Replace(s, i, i + 1, [s[i].(used := true)]);
        stale := Outside(g, stale, ptr, s[i].len);
        HeadersOnlyKeep2(g, s, blocks, a, ram[..]);
      }
      AllocLowest(g, s, i, size);
      if ptr == lfree {
        AdjustLowest(i);
      }
      r := At(ptr + g.hdr);
    }

    /** The header writes mem_malloc and mem_trim share: a header for the free rest behind n bytes of
      * the block at p, linked between p and next. (In mem_trim the block is marked used already.) */
    method Split(p: nat, next: nat, n: nat, ghost i: nat, ghost j: nat)
      requires Shaped() && Coalesced(blocks) && i < j <= |blocks| && p == blocks[i].off && next == Off(g, blocks, j)
      requires g.Aligned(n) && n >= g.minSize && p + 2 * g.hdr + n + g.minSize <= next
          && (j < |blocks| ==> blocks[j].used)
      requires j == i + 1 || (j == i + 2 && blocks[i].used && n <= blocks[i].len)
      modifies this`mem, this`blocks, this`stale, ram
      ensures Shaped() && Coalesced(blocks) && blocks == Cut(g, old(blocks), i, j, n)
      ensures Undisturbed(g, old(blocks), blocks, old(ram[..]), ram[..])
    {
      ghost var s, a, m0, k0 := blocks, ram[..], mem, stale;
      ghost var t := Cut(g, s, i, j, n);
      CutPlace(g, m0, s, i, j, n);
      WriteSplit(p, next, n, i, j);
      CutGood(g, s, i, j, n);
      KnownCut(g, m0, s, i, j, n, k0);
      stale := Outside(g, stale, p, n);
      blocks := t;
      HeadersOnlyKeep(g, s, t, a, ram[..]);
    }

    method WriteSplit(p: nat, next: nat, n: nat, ghost i: nat, ghost j: nat)
      requires i < j <= |blocks| && p == blocks[i].off && next == Off(g, blocks, j) && p in mem && next in mem
      requires p + 2 * g.hdr + n <= next && p + 2 * g.hdr + n <= ram.Length
      requires HeaderAt(Cut(g, blocks, i, j, n), p + g.hdr + n) && (j < |blocks| ==> next + g.hdr <= ram.Length)
      requires (j < |blocks| <==> next != g.memSize) && p + g.hdr + n != p && p != next && p + g.hdr + n != next
      modifies this`mem, this`stale, ram
      ensures mem == CutHeaders(g, old(mem), blocks, i, j, n)
      ensures stale == CutWrites(g, blocks, i, j, n, old(stale))
      ensures OnlyHeaders(g, blocks, Cut(g, blocks, i, j, n), old(ram[..]), ram[..])
    {
      ghost var s, t, a := blocks, Cut(g, blocks, i, j, n), ram[..];
      var ptr2 := p + g.hdr + n;
      SetHeader(ptr2, Header(next, p, false), s, t, a);
      SetHeader(p, mem[p].(next := ptr2), s, t, a);
      SetHeader(p, mem[p].(used := true), s, t, a);
      if next != g.memSize {
        SetHeader(next, mem[next].(prev := ptr2), s, t, a);
      }
    }

    /** Moves the lowest-free pointer from an allocated block to the next free one. */
    method AdjustLowest(ghost i: nat)
      requires Shaped() && i < |blocks| && lfree == blocks[i].off
      requires forall k {:trigger blocks[k]} | 0 <= k < i :: blocks[k].used
      modifies this`lfree
      ensures lfree == LowestFree(g, blocks)
    {
      var cur := lfree;
      ghost var k := i;
      OffInjective(g, blocks, i, i);
      Neighbours(g, mem, blocks, i);
      while mem[cur].used && cur != g.memSize
        invariant k <= |blocks| && cur == Off(g, blocks, k) && cur in mem
            && (k < |blocks| ==> mem[cur].used == blocks[k].used)
        invariant cur == g.memSize <==> k == |blocks|
        invariant forall l {:trigger blocks[l]} | 0 <= l < k :: blocks[l].used
        decreases |blocks| - k
      {
        Neighbours(g, mem, blocks, k);
        cur := mem[cur].next;
        k := k + 1;
        if k < |blocks| {
          Neighbours(g, mem, blocks, k);
        }
      }
      LowestIs(g, blocks, k);
      lfree := cur;
      assert lfree == g.memSize || !mem[lfree].used;
    }

    /** mem_trim. The pointer must be out of range, or one that mem_malloc returned and that has not
      * been freed. asserted tells whether its assertions hold. */
    method Trim(rmem: Ptr, newSize: nat) returns (r: Ptr, asserted: bool)
      requires Valid() && newSize < g.width
      requires rmem.At? && 0 <= rmem.off < g.memSize ==>
          rmem.off >= g.hdr && Find(blocks, rmem.off - g.hdr, 0) < |blocks|
      modifies this`mem, this`lfree, this`blocks, this`stale, ram
      ensures Valid() && WellFormed(g, old(blocks))
      ensures Trimmed(g, old(blocks), blocks, rmem, newSize, r)
      ensures asserted <==> TrimAsserts(g, old(blocks), rmem, newSize)
      ensures Undisturbed(g, old(blocks), blocks, old(ram[..]), ram[..])
    {
      ghost var s, a := blocks, ram[..];
      HeadersOnlyKeep(g, s, s, a, a);
      asserted := true;
      var newsize := RoundUp(newSize);
      if newsize > g.memSize || newsize < newSize {
        return Null, asserted;
      }
      asserted := rmem.At? && 0 <= rmem.off < g.memSize;
      if rmem.Null? || rmem.off < 0 || rmem.off >= g.memSize {
        return rmem, asserted;
      }
      var p: nat := rmem.off - g.hdr;
      ghost var i := Find(s, p, 0);
      Neighbours(g, mem, s, i);
      TilesAdjacent(g, s, i);
      var size := mem[p].next - p - g.hdr;
      asserted := asserted && newsize <= size;
      if newsize > size {
        return Null, asserted;
      }
      if newsize == size {
        return rmem, asserted;
      }
      RoundedIs(g, newSize);
      var held := Shrink(p, newsize, size, i);
      r, asserted := rmem, asserted && held;
    }

    /** The part of mem_trim behind the checks. */
    method Shrink(p: nat, newsize: nat, size: nat, ghost i: nat) returns (asserted: bool)
      requires Valid() && i < |blocks| && p == blocks[i].off && blocks[i].used && size == blocks[i].len
      requires g.Aligned(newsize) && g.minSize <= newsize < size
      modifies this`mem, this`lfree, this`blocks, this`stale, ram
      ensures Valid() && Adjacent(g, old(blocks), i) && blocks == HeapLayout.Trim(g, old(blocks), i, newsize)
      ensures asserted <==> !(i + 1 == |old(blocks)| && newsize + g.hdr + g.minSize <= size)
      ensures Undisturbed(g, old(blocks), blocks, old(ram[..]), ram[..])
    {
      ghost var s, a := blocks, ram[..];
      HeadersOnlyKeep(g, s, s, a, a);
      Neighbours(g, mem, s, i);
      TrimGood(g, s, i, newsize);
      asserted := true;
      var mem2 := mem[p].next;
      if !mem[mem2].used {
        asserted := mem[p].next != g.memSize;
        ShrinkInto(p, mem2, newsize, i);
      } else if newsize + g.hdr + g.minSize <= size {
        asserted := mem[p].next != g.memSize;
        ShrinkTail(p, mem2, newsize, i);
      }
    }

    /** The bytes given up go to the free block behind. */
    method ShrinkInto(p: nat, mem2: nat, newsize: nat, ghost i: nat)
      requires Valid() && i + 1 < |blocks| && p == blocks[i].off && blocks[i].used && !blocks[i + 1].used
      requires mem2 == blocks[i + 1].off && g.Aligned(newsize) && g.minSize <= newsize < blocks[i].len
      modifies this`mem, this`lfree, this`blocks, this`stale, ram
      ensures Valid() && Adjacent(g, old(blocks), i) && blocks == HeapLayout.Trim(g, old(blocks), i, newsize)
      ensures Undisturbed(g, old(blocks), blocks, old(ram[..]), ram[..])
    {
      ghost var s := blocks;
      Neighbours(g, mem, s, i);
      SuccessorUsed(s, i + 1);
      TilesAdjacent(g, s, i);
      RoomBehind(g, s, i, newsize);
      CutLowest(g, s, i, i + 2, newsize);
      var next := mem[mem2].next;
      var ptr2 := p + g.hdr + newsize;
      if lfree == mem2 {
        lfree := ptr2;
      }
      Split(p, next, newsize, i, i + 2);
    }

    /** The bytes given up become a free block. */
    method ShrinkTail(p: nat, mem2: nat, newsize: nat, ghost i: nat)
      requires Valid() && i < |blocks| && p == blocks[i].off && blocks[i].used && mem2 == Off(g, blocks, i + 1)
      requires i + 1 < |blocks| ==> blocks[i + 1].used
      requires g.Aligned(newsize) && g.minSize <= newsize && newsize + g.hdr + g.minSize <= blocks[i].len
      modifies this`mem, this`lfree, this`blocks, this`stale, ram
      ensures Valid() && Adjacent(g, old(blocks), i) && blocks == HeapLayout.Trim(g, old(blocks), i, newsize)
      ensures Undisturbed(g, old(blocks), blocks, old(ram[..]), ram[..])
    {
      ghost var s := blocks;
      TilesAdjacent(g, s, i);
      CutLowest(g, s, i, i + 1, newsize);
      var ptr2 := p + g.hdr + newsize;
      if ptr2 < lfree {
        lfree := ptr2;
      }
      Split(p, mem2, newsize, i, i + 1);
    }

    /** mem_trim as pbuf_realloc calls it, to no more than the block has: the pointer is kept. */
    method TrimSmaller(rmem: Ptr, newSize: nat) returns (r: Ptr, asserted: bool)
      requires Valid() && rmem.At? && g.hdr <= rmem.off < g.memSize && Find(blocks, rmem.off - g.hdr, 0) < |blocks|
      requires newSize <= blocks[Find(blocks, rmem.off - g.hdr, 0)].len
      modifies this`mem, this`lfree, this`blocks, this`stale, ram
      ensures Valid() && r == rmem && WellFormed(g, old(blocks))
      ensures blocks == Step(g, old(blocks), Call.Shrink(rmem.off - g.hdr, newSize))
      ensures asserted <==> !SplitsLast(g, old(blocks), Find(old(blocks), rmem.off - g.hdr, 0), newSize)
    {
      TrimFits(g, blocks, Find(blocks, rmem.off - g.hdr, 0), newSize);
      r, asserted := Trim(rmem, newSize);
    }

    /** mem_sanity: none of its assertions fails. */
    method Sanity() returns (ok: bool)
      requires Valid()
      ensures ok
    {
      Neighbours(g, mem, blocks, 0);
      OffInjective(g, blocks, 0, 0);
      var lastUsed := mem[0].used;
      ok := mem[0].prev == 0 && mem[0].next <= g.memSize;
      var p := mem[0].next;
      ghost var i := 1;
      while p > 0 && p < g.memSize
        invariant ok && 1 <= i <= |blocks| && 0 < p == Off(g, blocks, i) <= g.memSize && lastUsed == blocks[i - 1].used
        invariant p == g.memSize <==> i == |blocks|
        decreases |blocks| - i
      {
        Neighbours(g, mem, blocks, i);
        assert GoodBlock(g, blocks, i) && Apart(blocks, i - 1);
        ok := ok && p % g.align == 0 && mem[p].prev <= g.memSize && mem[p].next <= g.memSize;
        if !lastUsed {
          ok := ok && mem[p].used;
        }
        var valid := LinkValid(p, i);
        ok := ok && valid;
        lastUsed := mem[p].used;
        p := mem[p].next;
        i := i + 1;
      }
      ok := ok && p == g.memSize && mem[p].used && mem[p].prev == g.memSize && mem[p].next == g.memSize;
    }
  }

  // ---------- headers that are left over ----------

  /** The bytes of a header lie in the data of a free block. */
  ghost predicate InFree(g: Config, s: Layout, a: nat) {
    exists k :: 0 <= k < |s| && !s[k].used && s[k].off + g.hdr <= a && a + g.hdr <= End(g, s[k])
  }

  /** Headers that are left over read as free and lie in free blocks. */
  ghost predicate Known(g: Config, m: Headers, s: Layout, stale: set<nat>) {
    forall a | a in stale :: a in m && !m[a].used && InFree(g, s, a)
  }

  /** Those that a write of a header at p leaves, and those outside the first len data bytes of a block at p. */
  ghost function Spared(g: Config, stale: set<nat>, p: nat): set<nat> {
    set a | a in stale && (a + g.hdr <= p || p + g.hdr <= a)
  }

  ghost function Outside(g: Config, stale: set<nat>, p: nat, len: nat): set<nat> {
    set a | a in stale && (a + g.hdr <= p + g.hdr || p + g.hdr + len <= a)
  }

  /** No allocated block and no header overlaps a header that is left over. */
  lemma {:induction false} StaleApart(g: Config, m: Headers, s: Layout, stale: set<nat>, a: nat, i: nat)
    requires Tiles(g, s) && Known(g, m, s, stale) && a in stale && i < |s|
    ensures a + g.hdr <= s[i].off || s[i].off + g.hdr <= a
    ensures s[i].used ==> a + g.hdr <= s[i].off || End(g, s[i]) <= a
  {
    var k :| 0 <= k < |s| && !s[k].used && s[k].off + g.hdr <= a && a + g.hdr <= End(g, s[k]);
    if k < i {
      Ordered(g, s, k, i);
    } else if i < k {
      Ordered(g, s, i, k);
    }
  }

  /** A write of the header of block i spares all of them. */
  lemma {:induction false} SparedAll(g: Config, m: Headers, s: Layout, stale: set<nat>, i: nat)
    requires Tiles(g, s) && Known(g, m, s, stale) && i <= |s|
    ensures Spared(g, stale, Off(g, s, i)) == stale && Off(g, s, i) !in stale
  {
    forall a | a in stale ensures a + g.hdr <= Off(g, s, i) || Off(g, s, i) + g.hdr <= a {
      var k :| 0 <= k < |s| && !s[k].used && s[k].off + g.hdr <= a && a + g.hdr <= End(g, s[k]);
      assert GoodBlock(g, s, k);
      if i > k {
        if i < |s| { Ordered(g, s, k, i); } else { Ordered(g, s, k, |s|); }
      } else if i < k {
        Ordered(g, s, i, k);
      }
    }
  }

  lemma {:induction false} KnownMerged(g: Config, m: Headers, n: Headers, s: Layout, i: nat, stale: set<nat>)
    requires Tiles(g, s) && Links(g, m, s) && Known(g, m, s, stale)
    requires i + 1 < |s| && !s[i].used && !s[i + 1].used && End(g, s[i]) == s[i + 1].off && UseKept(m, n)
    ensures Known(g, n, Merged(g, s, i), stale + {s[i + 1].off})
  {
    var t := Merged(g, s, i);
    assert t[i] == Block(s[i].off, s[i].len + g.hdr + s[i + 1].len, false) && Linked(g, m, s, i + 1);
    forall a | a in stale + {s[i + 1].off} ensures a in n && !n[a].used && InFree(g, t, a) {
      if a in stale {
        var k :| 0 <= k < |s| && !s[k].used && s[k].off + g.hdr <= a && a + g.hdr <= End(g, s[k]);
        assert if k < i then t[k] == s[k] else if k > i + 1 then t[k - 1] == s[k] else t[i].off + g.hdr <= a;
      }
    }
  }

  lemma {:induction false} KnownFree(g: Config, m: Headers, s: Layout, i: nat, stale: set<nat>)
    requires Tiles(g, s) && Known(g, m, s, stale) && i < |s| && s[i].used && s[i].off in m && s[i].off !in stale
    ensures Known(g, m[s[i].off := m[s[i].off].(used := false)], s[i := s[i].(used := false)], stale)
  {
    var t := s[i := s[i].(used := false)];
    forall a | a in stale ensures InFree(g, t, a) {
      var k :| 0 <= k < |s| && !s[k].used && s[k].off + g.hdr <= a && a + g.hdr <= End(g, s[k]);
      assert t[k] == s[k];
    }
  }

  lemma {:induction false} KnownUsed(g: Config, m: Headers, s: Layout, i: nat, stale: set<nat>)
    requires Tiles(g, s) && Known(g, m, s, stale) && i < |s| && s[i].off in m && s[i].off !in stale
    ensures Known(g, m[s[i].off := m[s[i].off].(used := true)], Replace(s, i, i + 1, [s[i].(used := true)]),
                  Outside(g, stale, s[i].off, s[i].len))
  {
    var t := Replace(s, i, i + 1, [s[i].(used := true)]);
    forall a | a in Outside(g, stale, s[i].off, s[i].len) ensures InFree(g, t, a) {
      var k :| 0 <= k < |s| && !s[k].used && s[k].off + g.hdr <= a && a + g.hdr <= End(g, s[k]);
      assert k != i && t[k] == s[k];
    }
  }

  /** What the header writes of a split spare; nothing is left over in the block handed out. */
  ghost function CutWrites(g: Config, s: Layout, i: nat, j: nat, n: nat, stale: set<nat>): set<nat>
    requires i < j <= |s|
  {
    var behind := Spared(g, Spared(g, stale, s[i].off + g.hdr + n), s[i].off);
    if j < |s| then Spared(g, behind, s[j].off) else behind
  }

  ghost function CutStale(g: Config, s: Layout, i: nat, j: nat, n: nat, stale: set<nat>): set<nat>
    requires i < j <= |s|
  {
    Outside(g, CutWrites(g, s, i, j, n, stale), s[i].off, n)
  }

  lemma {:induction false} KnownCut(g: Config, m: Headers, s: Layout, i: nat, j: nat, n: nat, stale: set<nat>)
    requires Tiles(g, s) && Links(g, m, s) && Known(g, m, s, stale) && i < j <= |s| && j <= i + 2
    requires s[i].off + 2 * g.hdr + n <= Off(g, s, j) && s[i].off in m && Off(g, s, j) in m
    requires j == i + 2 ==> s[i].used && n <= s[i].len
    ensures Known(g, CutHeaders(g, m, s, i, j, n), Cut(g, s, i, j, n), CutStale(g, s, i, j, n, stale))
  {
    var h, t, ptr2 := CutHeaders(g, m, s, i, j, n), Cut(g, s, i, j, n), s[i].off + g.hdr + n;
    assert t[i + 1] == Block(ptr2, Off(g, s, j) - ptr2 - g.hdr, false);
    SparedAll(g, m, s, stale, i);
    SparedAll(g, m, s, stale, j);
    forall a | a in CutStale(g, s, i, j, n, stale) ensures a in h && !h[a].used && InFree(g, t, a) {
      var k :| 0 <= k < |s| && !s[k].used && s[k].off + g.hdr <= a && a + g.hdr <= End(g, s[k]);
      assert GoodBlock(g, s, k) && GoodBlock(g, s, i);
      if k < i {
        assert t[k] == s[k];
      } else if k >= j {
        assert t[k - j + i + 2] == s[k];
      } else {
        assert t[i + 1].off + g.hdr <= a && a + g.hdr <= End(g, t[i + 1]);
      }
    }
  }

  // ---------- what the calls promise ----------

  /** mem_malloc: NULL exactly if the request is empty, too large for the heap, or larger than every
    * free block; otherwise the data of the one block that is new among the live ones, aligned and
    * long enough. */
  ghost predicate Allocated(g: Config, s: Layout, t: Layout, sizeIn: nat, r: Ptr)
    requires g.Ok()
  {
    && (r.Null? <==> sizeIn == 0 || g.AlignUp(sizeIn) > g.memSize
                     || forall b | b in s :: !FreeFor(b, g.Rounded(sizeIn)))
    && (r.Null? ==> t == s)
    && (r.At? ==> r.off % g.align == 0 && exists b: Block ::
          b.used && b.off + g.hdr == r.off && b.len >= sizeIn && b !in Live(s) && Live(t) == Live(s) + {b})
  }

  /** When nothing is found or looked for, NULL is the right answer. */
  lemma {:induction false} NotAllocated(g: Config, s: Layout, sizeIn: nat)
    requires WellFormed(g, s) && sizeIn < g.width
    ensures sizeIn == 0 || !g.Fits(sizeIn) || FirstFit(s, g.Rounded(sizeIn), 0) == |s| ==>
              Step(g, s, Call.Malloc(sizeIn)) == s && Allocated(g, s, s, sizeIn, Null)
  {
    RoundedIs(g, sizeIn);
  }

  lemma {:induction false} AllocatedThere(g: Config, s: Layout, sizeIn: nat, i: nat)
    requires WellFormed(g, s) && 0 < sizeIn < g.width && g.Fits(sizeIn) && i < |s|
        && i == FirstFit(s, g.Rounded(sizeIn), 0)
    ensures Adjacent(g, s, i) && Step(g, s, Call.Malloc(sizeIn)) == Alloc(g, s, i, g.Rounded(sizeIn))
    ensures Allocated(g, s, Alloc(g, s, i, g.Rounded(sizeIn)), sizeIn, At(s[i].off + g.hdr))
  {
    RoundedIs(g, sizeIn);
    AllocGood(g, s, i, g.Rounded(sizeIn));
    assert GoodBlock(g, s, i);
    AlignSum(g, s[i].off, g.hdr);
    assert s[i] in s;
  }

  /** The scan that stops size bytes before the end has not missed a block. */
  lemma {:induction false} NoneFits(g: Config, s: Layout, size: nat, j: nat)
    requires Tiles(g, s) && j <= |s| && Off(g, s, j) >= g.memSize - size
    requires forall k {:trigger s[k]} | 0 <= k < j :: !FreeFor(s[k], size)
    ensures FirstFit(s, size, 0) == |s| && forall b | b in s :: !FreeFor(b, size)
  {
    forall k | 0 <= k < |s| ensures !FreeFor(s[k], size) {
      if k >= j {
        Ordered(g, s, k, |s|);
        OffInjective(g, s, j, k);
      }
    }
    FirstFitUnique(s, size, |s|);
  }

  /** mem_trim: NULL if the new size is too large for the heap or for the block; then, and for a
    * pointer out of range, nothing happens; otherwise the same pointer, and the row is trimmed. */
  ghost predicate Trimmed(g: Config, s: Layout, t: Layout, rmem: Ptr, newSize: nat, r: Ptr)
    requires WellFormed(g, s)
  {
    if newSize >= g.width || !g.Fits(newSize) then r.Null? && t == s
    else if rmem.Null? || rmem.off < g.hdr || rmem.off >= g.memSize then r == rmem && t == s
    else
      var i := Find(s, rmem.off - g.hdr, 0);
      i < |s| && if g.Rounded(newSize) > s[i].len then r.Null? && t == s
                 else r == rmem && t == Step(g, s, Call.Shrink(rmem.off - g.hdr, newSize))
  }

  /** Trimming block i to a size makes a new block in front of the end marker. */
  ghost predicate SplitsLast(g: Config, s: Layout, i: nat, newSize: nat)
    requires g.Ok() && i < |s|
  {
    i + 1 == |s| && g.Rounded(newSize) + g.hdr + g.minSize <= s[i].len
  }

  /** When all assertions of mem_trim hold: the pointer is legal, the block does not grow, and it is not split
    * as the last one, whose `next` is the end marker. */
  ghost predicate TrimAsserts(g: Config, s: Layout, rmem: Ptr, newSize: nat)
    requires WellFormed(g, s)
  {
    g.Fits(newSize) ==>
      && rmem.At? && 0 <= rmem.off < g.memSize
      && (rmem.off >= g.hdr && Find(s, rmem.off - g.hdr, 0) < |s| ==>
            var i := Find(s, rmem.off - g.hdr, 0);
            g.Rounded(newSize) <= s[i].len && !SplitsLast(g, s, i, newSize))
  }

  /** A block that fills the whole heap and is trimmed: mem_trim works, but its assertion does not hold. */
  lemma {:induction false} TrimAssertFails(g: Config)
    requires g.Ok() && g.memSize >= 2 * (g.hdr + g.minSize)
    ensures var s := After(g, [Call.Malloc(g.memSize - g.hdr)]);
            && Find(s, 0, 0) == 0 && s == [Block(0, g.memSize - g.hdr, true)]
            && Trimmed(g, s, Step(g, s, Call.Shrink(0, g.minSize)), At(g.hdr), g.minSize, At(g.hdr))
            && !TrimAsserts(g, s, At(g.hdr), g.minSize)
  {
    var n, call := g.memSize - g.hdr, Call.Malloc(g.memSize - g.hdr);
    AlignSum(g, g.memSize, g.hdr);
    AlreadyAligned(g, n);
    AlreadyAligned(g, g.minSize);
    assert [call][..0] == [];
    assert After(g, [call]) == Step(g, Initial(g), call);
    assert FreeFor(Initial(g)[0], n) && FirstFit(Initial(g), n, 0) == 0;
    assert After(g, [call]) == [Block(0, n, true)];
  }

  lemma {:induction false} AlreadyAligned(g: Config, n: nat)
    requires g.Ok() && g.Aligned(n) && g.minSize <= n <= g.memSize
    ensures g.Rounded(n) == n && g.Fits(n)
  {
    AlignUpIs(g, n);
    if n < g.AlignUp(n) { AlignGap(g, n, g.AlignUp(n)); }
    WidthMod(n, g.width);
  }

  // ---------- splitting ----------

  function CutHeaders(g: Config, m: Headers, s: Layout, i: nat, j: nat, n: nat): Headers
    requires i < j <= |s| && s[i].off in m && Off(g, s, j) in m
  {
    var p, next, ptr2 := s[i].off, Off(g, s, j), s[i].off + g.hdr + n;
    var cut := m[ptr2 := Header(next, p, false)][p := Header(ptr2, m[p].prev, true)];
    if j < |s| then cut[next := m[next].(prev := ptr2)] else cut
  }

  /** Where the new header of a split lies, and that the headers then link the row cut. */
  lemma {:induction false} CutPlace(g: Config, m: Headers, s: Layout, i: nat, j: nat, n: nat)
    requires WellFormed(g, s) && Links(g, m, s) && i < j <= |s|
    requires g.Aligned(n) && n >= g.minSize && s[i].off + 2 * g.hdr + n + g.minSize <= Off(g, s, j)
    requires j < |s| ==> s[j].used
    ensures s[i].off in m && Off(g, s, j) in m
    ensures var ptr2, t := s[i].off + g.hdr + n, Cut(g, s, i, j, n);
            && ptr2 + g.hdr <= g.memSize && s[i].off + g.hdr <= g.memSize && (j < |s| ==> s[j].off + g.hdr <= g.memSize)
            && (j < |s| <==> Off(g, s, j) != g.memSize) && ptr2 != s[i].off && ptr2 != Off(g, s, j)
               && s[i].off != Off(g, s, j)
            && HeaderAt(t, ptr2) && HeaderAt(s, s[i].off) && (j < |s| ==> HeaderAt(s, s[j].off))
            && Tiles(g, t) && Links(g, CutHeaders(g, m, s, i, j, n), t)
  {
    var rest := s[i].off + g.hdr + n;
    var mid := [Block(s[i].off, n, true), Block(rest, Off(g, s, j) - rest - g.hdr, false)];
    assert Linked(g, m, s, i) && GoodBlock(g, s, i);
    if j < |s| {
      assert Linked(g, m, s, j);
    }
    var h, t := CutHeaders(g, m, s, i, j, n), Cut(g, s, i, j, n);
    CutGood(g, s, i, j, n);
    assert t[i] == mid[0] && t[i + 1] == mid[1];
    HeaderBounds(g, t, i + 1);
    OffBelow(g, s, i, j);
    HeaderBoundsAt(g, s, j);
    CutCovers(g, s, i, j, n);
    OffInjective(g, s, i, i);
    RelinkedLinks(g, m, h, s, i, j, mid);
  }

  lemma {:induction false} CutCovers(g: Config, s: Layout, i: nat, j: nat, n: nat)
    requires Tiles(g, s) && i < j <= |s|
    requires g.Aligned(n) && n >= g.minSize && s[i].off + 2 * g.hdr + n + g.minSize <= Off(g, s, j)
    ensures var rest := s[i].off + g.hdr + n;
            Covers(g, s, i, j, [Block(s[i].off, n, true), Block(rest, Off(g, s, j) - rest - g.hdr, false)])
  {
    var rest := s[i].off + g.hdr + n;
    var mid := [Block(s[i].off, n, true), Block(rest, Off(g, s, j) - rest - g.hdr, false)];
    assert GoodBlock(g, s, i);
    OffAligned(g, s, j);
    AlignSum(g, s[i].off, g.hdr);
    AlignSum(g, s[i].off + g.hdr, n);
    AlignSum(g, Off(g, s, j), rest);
    AlignSum(g, Off(g, s, j) - rest, g.hdr);
    assert GoodMid(g, s, i, j, mid, 0) && GoodMid(g, s, i, j, mid, 1);
  }

  /** Marking block i used without splitting it. */
  lemma {:induction false} UseLinks(g: Config, m: Headers, s: Layout, i: nat)
    requires Tiles(g, s) && Links(g, m, s) && i < |s| && s[i].off in m
    ensures Tiles(g, Replace(s, i, i + 1, [s[i].(used := true)]))
    ensures Links(g, m[s[i].off := m[s[i].off].(used := true)], Replace(s, i, i + 1, [s[i].(used := true)]))
    ensures HeaderAt(s, s[i].off)
  {
    var mid, n := [s[i].(used := true)], m[s[i].off := m[s[i].off].(used := true)];
    assert GoodBlock(g, s, i) && Linked(g, m, s, i);
    assert GoodMid(g, s, i, i + 1, mid, 0);
    if i + 1 < |s| {
      assert Linked(g, m, s, i + 1);
      OffInjective(g, s, i, i + 1);
    }
    OffInjective(g, s, i, i);
    RelinkedLinks(g, m, n, s, i, i + 1, mid);
  }

  /** Block i and the one behind it have room for block i cut to n bytes and a free block. */
  lemma {:induction false} RoomBehind(g: Config, s: Layout, i: nat, n: nat)
    requires Tiles(g, s) && i + 1 < |s| && n < s[i].len
    ensures s[i].off + 2 * g.hdr + n + g.minSize <= Off(g, s, i + 2)
  {
    assert GoodBlock(g, s, i) && GoodBlock(g, s, i + 1);
  }

  /** The lowest free block of a row with the allocated block i cut. */
  lemma {:induction false} CutLowest(g: Config, s: Layout, i: nat, j: nat, n: nat)
    requires Tiles(g, s) && i < j <= |s| && s[i].used && s[i].off + 2 * g.hdr + n <= Off(g, s, j)
    requires forall k {:trigger s[k]} | i + 1 < k < j :: s[k].used
    requires j == i + 1 || (j == i + 2 && !s[i + 1].used)
    ensures var ptr2 := s[i].off + g.hdr + n;
            LowestFree(g, Cut(g, s, i, j, n)) ==
            if j == i + 2 then (if LowestFree(g, s) == s[i + 1].off then ptr2 else LowestFree(g, s))
            else if ptr2 < LowestFree(g, s) then ptr2 else LowestFree(g, s)
  {
    var f, t := FirstFit(s, 0, 0), Cut(g, s, i, j, n);
    LowestIs(g, t, if f < i then f else i + 1);
    if f < i {
      OffInjective(g, s, f, i);
      if j == i + 2 {
        OffInjective(g, s, f, i + 1);
      }
    } else {
      Ordered(g, s, i, f);
      assert GoodBlock(g, s, i);
      if j == i + 2 {
        assert FreeFor(s[i + 1], 0);
      }
    }
  }

  /** The lowest free block behind an allocation from block i, unless it was block i itself. */
  lemma {:induction false} AllocLowest(g: Config, s: Layout, i: nat, size: nat)
    requires WellFormed(g, s) && i < |s| && FreeFor(s[i], size) && Adjacent(g, s, i)
    ensures var t := Alloc(g, s, i, size);
            && i < |t| && t[i].off == s[i].off
            && (LowestFree(g, s) == s[i].off ==> forall k {:trigger t[k]} | 0 <= k < i :: t[k].used)
            && (LowestFree(g, s) != s[i].off ==> LowestFree(g, t) == LowestFree(g, s))
  {
    var f, t := FirstFit(s, 0, 0), Alloc(g, s, i, size);
    assert FreeFor(s[i], 0);
    OffInjective(g, s, f, i);
    if f < i {
      LowestIs(g, t, f);
    }
  }

  /** A pointer that is misaligned or out of range belongs to no allocated block. */
  lemma {:induction false} FreeNothing(g: Config, s: Layout, off: int)
    requires WellFormed(g, s) && (off % g.align != 0 || off - g.hdr < 0 || off + g.minSize > g.memSize)
    ensures off >= g.hdr ==> Step(g, s, Call.Free(off - g.hdr)) == s
  {
    if off >= g.hdr {
      var i := Find(s, off - g.hdr, 0);
      if i < |s| {
        assert GoodBlock(g, s, i);
        AlignSum(g, s[i].off, g.hdr);
        Ordered(g, s, i, |s|);
        assert false;
      }
    }
  }

  lemma {:induction false} FindIs(g: Config, s: Layout, i: nat)
    requires Tiles(g, s) && i < |s|
    ensures Find(s, s[i].off, 0) == if s[i].used then i else |s|
  {
    var f := Find(s, s[i].off, 0);
    if f < |s| {
      OffInjective(g, s, f, i);
    }
  }

  /** Marking block i free. */
  lemma {:induction false} MarkFree(g: Config, m: Headers, s: Layout, i: nat)
    requires WellFormed(g, s) && Links(g, m, s) && i < |s| && s[i].used && s[i].off in m
    ensures var t := s[i := s[i].(used := false)];
            && Tiles(g, t) && Links(g, m[s[i].off := m[s[i].off].(used := false)], t) && Adjacent(g, t, i)
               && HeadersIn(t, s)
            && Adjacent(g, s, i) && Release(g, t, i) == Release(g, s, i)
            && LowestFree(g, t) == Min(LowestFree(g, s), s[i].off)
  {
    var t, mid := s[i := s[i].(used := false)], [s[i].(used := false)];
    assert t == Replace(s, i, i + 1, mid);
    assert GoodBlock(g, s, i) && Linked(g, m, s, i);
    assert GoodMid(g, s, i, i + 1, mid, 0);
    var n := m[s[i].off := m[s[i].off].(used := false)];
    if i + 1 < |s| {
      assert Linked(g, m, s, i + 1);
      OffInjective(g, s, i, i + 1);
    }
    OffInjective(g, s, i, i);
    RelinkedLinks(g, m, n, s, i, i + 1, mid);
    LowestFreed(g, s, i, i + 1, mid);
    TilesAdjacent(g, s, i);
    TilesAdjacent(g, t, i);
    forall k | 0 <= k < |t| ensures HeaderAt(s, t[k].off) { assert s[k].off == t[k].off; }
  }

  /** No header has been lost, and none is marked otherwise. */
  ghost predicate UseKept(m: Headers, n: Headers) {
    forall p | p in m :: p in n && n[p].used == m[p].used
  }

  ghost predicate HeaderAt(s: Layout, p: nat) {
    exists i :: 0 <= i < |s| && s[i].off == p
  }

  lemma {:induction false} InHeaderAt(g: Config, s: Layout, p: nat, k: nat)
    requires HeaderAt(s, p) && p <= k < p + g.hdr
    ensures InHeader(g, s, k)
  {
  }

  /** Every header of t is a header of s. */
  ghost predicate HeadersIn(t: Layout, s: Layout) {
    forall i {:trigger t[i]} | 0 <= i < |t| :: HeaderAt(s, t[i].off)
  }

  lemma {:induction false} HeaderBounds(g: Config, s: Layout, i: nat)
    requires Tiles(g, s) && i < |s|
    ensures s[i].off + g.hdr <= g.memSize
  {
    Ordered(g, s, i, |s|);
  }

  lemma {:induction false} HeaderBoundsAt(g: Config, s: Layout, j: nat)
    requires Tiles(g, s) && j <= |s|
    ensures j < |s| <==> Off(g, s, j) != g.memSize
    ensures j < |s| ==> s[j].off + g.hdr <= g.memSize
  {
    if j < |s| {
      HeaderBounds(g, s, j);
    }
  }

  lemma {:induction false} SuccessorUsed(s: Layout, i: nat)
    requires Coalesced(s) && i < |s| && !s[i].used
    ensures i + 1 < |s| ==> s[i + 1].used
  {
    if i + 1 < |s| {
      assert Apart(s, i);
    }
  }

  /** As HeadersOnlyKeep, when only headers of the first row were written. */
  lemma {:induction false} HeadersOnlyKeep2(g: Config, s: Layout, t: Layout, a: seq<byte>, b: seq<byte>)
    requires Tiles(g, s) && Tiles(g, t) && OnlyHeaders(g, s, [], a, b) && |a| >= g.memSize
    ensures Undisturbed(g, s, t, a, b)
  {
    assert OnlyHeaders(g, s, t, a, b);
    HeadersOnlyKeep(g, s, t, a, b);
  }

  lemma {:induction false} LowestBelow(g: Config, s: Layout, i: nat)
    requires Tiles(g, s) && i < |s| && !s[i].used
    ensures LowestFree(g, s) <= s[i].off
  {
    var f := FirstFit(s, 0, 0);
    assert FreeFor(s[i], 0);
    OffInjective(g, s, f, i);
  }

  /** Blocks i and i + 1 made one. */
  function Merged(g: Config, s: Layout, i: nat): Layout
    requires i + 1 < |s| && End(g, s[i]) == s[i + 1].off
  {
    Replace(s, i, i + 2, [Block(s[i].off, s[i].len + g.hdr + s[i + 1].len, false)])
  }

  /** The header changes of a merge. */
  ghost function MergedLinks(g: Config, m: Headers, s: Layout, i: nat): Headers
    requires i + 1 < |s| && s[i].off in m && (i + 2 < |s| ==> s[i + 2].off in m)
  {
    var n := m[s[i].off := m[s[i].off].(next := Off(g, s, i + 2))];
    if i + 2 < |s| then n[s[i + 2].off := m[s[i + 2].off].(prev := s[i].off)] else n
  }

  lemma {:induction false} MergeGood(g: Config, m: Headers, n: Headers, s: Layout, i: nat)
    requires Tiles(g, s) && Links(g, m, s) && i + 1 < |s| && !s[i].used && !s[i + 1].used
    requires s[i].off in m
    requires i + 2 < |s| ==> s[i + 2].off in m && s[i].off != s[i + 2].off
    requires n == MergedLinks(g, m, s, i)
    ensures End(g, s[i]) == s[i + 1].off && Tiles(g, Merged(g, s, i)) && Links(g, n, Merged(g, s, i))
    ensures LowestFree(g, Merged(g, s, i)) == LowestFree(g, s)
  {
    var mid := [Block(s[i].off, s[i].len + g.hdr + s[i + 1].len, false)];
    Neighbours(g, m, s, i);
    assert GoodBlock(g, s, i) && GoodBlock(g, s, i + 1);
    AlignSum(g, s[i].len, g.hdr);
    AlignSum(g, s[i].len + g.hdr, s[i + 1].len);
    assert GoodMid(g, s, i, i + 2, mid, 0);
    assert Linked(g, m, s, i);
    RelinkedLinks(g, m, n, s, i, i + 2, mid);
    LowestFreed(g, s, i, i + 2, mid);
    LowestBelow(g, s, i);
  }

  lemma {:induction false} MergedHeaders(g: Config, b: Layout, i: nat, s: Layout)
    requires i + 1 < |b| && End(g, b[i]) == b[i + 1].off && HeadersIn(b, s)
    ensures HeadersIn(Merged(g, b, i), s)
  {
    var t := Merged(g, b, i);
    forall k | 0 <= k < |t| ensures HeaderAt(s, t[k].off) {
      assert t[k].off == if k <= i then b[k].off else b[k + 1].off;
    }
  }

  /** Uniting with a free successor and then with a free predecessor is what Release says. */
  lemma {:induction false} ForwardThenBack(g: Config, s: Layout, i: nat)
    requires Tiles(g, s) && i < |s| && !s[i].used
    ensures Adjacent(g, s, i)
    ensures var forward := i + 1 < |s| && !s[i + 1].used;
            var t := if forward then Merged(g, s, i) else s;
            && (i > 0 && !s[i - 1].used ==> End(g, t[i - 1]) == t[i].off && Release(g, s, i) == Merged(g, t, i - 1))
            && (i == 0 || s[i - 1].used ==> Release(g, s, i) == t)
  {
    TilesAdjacent(g, s, i);
    if i == 0 || s[i - 1].used {
      NoMerge(g, s, i);
    } else if i + 1 < |s| && !s[i + 1].used {
      BothMerge(g, s, i);
    } else {
      BackMerge(g, s, i);
    }
  }

  lemma {:induction false} NoMerge(g: Config, s: Layout, i: nat)
    requires i < |s| && Adjacent(g, s, i) && !s[i].used && (i == 0 || s[i - 1].used)
    ensures Release(g, s, i) == if i + 1 < |s| && !s[i + 1].used then Merged(g, s, i) else s
  {
    assert s == s[..i] + [s[i]] + s[i + 1..];
  }

  lemma {:induction false} BackMerge(g: Config, s: Layout, i: nat)
    requires 0 < i < |s| && Adjacent(g, s, i) && !s[i - 1].used && !s[i].used && (i + 1 == |s| || s[i + 1].used)
    ensures End(g, s[i - 1]) == s[i].off && Release(g, s, i) == Merged(g, s, i - 1)
  {
  }

  lemma {:induction false} BothMerge(g: Config, s: Layout, i: nat)
    requires 0 < i && i + 1 < |s| && Adjacent(g, s, i) && !s[i - 1].used && !s[i].used && !s[i + 1].used
    ensures var t := Merged(g, s, i);
            End(g, t[i - 1]) == t[i].off && Release(g, s, i) == Merged(g, t, i - 1)
  {
    var t := Merged(g, s, i);
    assert t[..i - 1] == s[..i - 1] && t[i - 1] == s[i - 1] && t[i].off == s[i].off && t[i + 1..] == s[i + 2..];
  }
}
