/** The heap of core/mem.c as a row of blocks: what allocating, freeing and trimming do to the row,
  * and what every row reached from the initial one is like. */
module HeapLayout {

  /** The compile-time constants: MEM_ALIGNMENT, SIZEOF_STRUCT_MEM, MIN_SIZE_ALIGNED,
    * MEM_SIZE_ALIGNED and the number of values of mem_size_t. */
  datatype Config = Config(align: nat, hdr: nat, minSize: nat, memSize: nat, width: nat) {
    ghost predicate Ok() {
      && align > 0 && hdr > 0 && minSize > 0 && hdr + minSize <= memSize < width
      && Aligned(hdr) && Aligned(minSize) && Aligned(memSize) && Aligned(width)
    }

    predicate Aligned(x: nat)
      requires align > 0
    {
      x % align == 0
    }

    /** LWIP_MEM_ALIGN_SIZE, on unbounded integers. */
    function AlignUp(x: nat): nat
      requires align > 0
    {
      (x + align - 1) / align * align
    }

    /** The size mem_malloc and mem_trim work with: aligned, cast to mem_size_t, at least minSize. */
    function Rounded(x: nat): nat
      requires align > 0 && width > 0
    {
      if AlignUp(x) % width < minSize then minSize else AlignUp(x) % width
    }

    /** Whether a request passes the first checks: not too large and not wrapped. */
    predicate Fits(x: nat)
      requires align > 0 && width > 0
    {
      x <= Rounded(x) <= memSize
    }
  }

  /** A block: the offset of its header, the length of its data, and whether it is allocated. */
  datatype Block = Block(off: nat, len: nat, used: bool)

  type Layout = seq<Block>

  /** The offset behind the i-th block. */
  function End(g: Config, b: Block): nat {
    b.off + g.hdr + b.len
  }

  /** The offset of the i-th header; behind the last block it is the end marker's. */
  function Off(g: Config, s: Layout, i: nat): nat {
    if i < |s| then s[i].off else g.memSize
  }

  ghost predicate GoodBlock(g: Config, s: Layout, i: nat)
    requires g.Ok() && i < |s|
  {
    && s[i].len >= g.minSize && g.Aligned(s[i].len) && g.Aligned(s[i].off)
    && End(g, s[i]) == Off(g, s, i + 1)
  }

  /** The blocks tile the heap from 0 to memSize. */
  ghost predicate Tiles(g: Config, s: Layout) {
    && g.Ok() && |s| > 0 && s[0].off == 0
    && forall i {:trigger GoodBlock(g, s, i)} | 0 <= i < |s| :: GoodBlock(g, s, i)
  }

  ghost predicate Apart(s: Layout, i: nat)
    requires i + 1 < |s|
  {
    s[i].used || s[i + 1].used
  }

  /** No two neighbours are both free. */
  ghost predicate Coalesced(s: Layout) {
    forall i {:trigger Apart(s, i)} | 0 <= i < |s| - 1 :: Apart(s, i)
  }

  ghost predicate WellFormed(g: Config, s: Layout) {
    Tiles(g, s) && Coalesced(s)
  }

  /** The heap mem_init leaves: one free block. */
  function Initial(g: Config): Layout
    requires g.hdr <= g.memSize
  {
    [Block(0, g.memSize - g.hdr, false)]
  }

  /** The allocated blocks. */
  ghost function Live(s: Layout): set<Block> {
    set b | b in s && b.used
  }

  // ---------- alignment ----------

  lemma {:induction false} MulStep(n: nat, a: nat, b: nat)
    requires a < b
    ensures n * a + n <= n * b
  {
    var d := b - a - 1;
    assert n * b == n * (a + 1 + d) == n * a + n + n * d;
  }

  lemma {:induction false} DivUnique(x: nat, n: nat, q: nat, r: nat)
    requires r < n && x == n * q + r
    ensures x / n == q && x % n == r
  {
    var q', r' := x / n, x % n;
    assert x == n * q' + r';
    if q < q' {
      MulStep(n, q, q');
    } else if q' < q {
      MulStep(n, q', q);
    }
  }

  lemma {:induction false} AlignSum(g: Config, a: nat, b: nat)
    requires g.align > 0 && g.Aligned(a) && g.Aligned(b)
    ensures g.Aligned(a + b)
    ensures a >= b ==> g.Aligned(a - b)
  {
    var n, x, y := g.align, a / g.align, b / g.align;
    assert a == n * x && b == n * y;
    assert n * (x + y) == n * x + n * y;
    DivUnique(a + b, n, x + y, 0);
    if a >= b {
      if x < y {
        MulStep(n, x, y);
      }
      assert n * (x - y) == n * x - n * y;
      DivUnique(a - b, n, x - y, 0);
    }
  }

  /** Rounding up: aligned, no less, and less than one alignment unit more. */
  lemma {:induction false} AlignUpIs(g: Config, x: nat)
    requires g.align > 0
    ensures g.Aligned(g.AlignUp(x)) && x <= g.AlignUp(x) < x + g.align
  {
    var q := (x + g.align - 1) / g.align;
    assert q * g.align == g.align * q;
    DivUnique(g.AlignUp(x), g.align, q, 0);
  }

  /** Two aligned numbers that differ are at least one alignment unit apart. */
  lemma {:induction false} AlignGap(g: Config, a: nat, b: nat)
    requires g.align > 0 && g.Aligned(a) && g.Aligned(b) && a < b
    ensures a + g.align <= b
  {
    AlignSum(g, b, a);
    if b - a < g.align {
      SmallUnaligned(g, b - a);
    }
  }

  lemma {:induction false} WidthMod(up: nat, width: nat)
    requires 0 < width && up <= width
    ensures up % width == if up == width then 0 else up
  {
    if up < width {
      DivUnique(up, width, 0, up);
    } else {
      DivUnique(up, width, 1, 0);
    }
  }

  /** A request that passes the checks is rounded to an aligned size that holds it; one below the
    * width of mem_size_t fails them exactly when it is too large for the heap. */
  lemma {:induction false} RoundedIs(g: Config, x: nat)
    requires g.Ok() && x < g.width
    ensures g.Aligned(g.Rounded(x)) && g.Rounded(x) >= g.minSize
    ensures g.Fits(x) <==> g.AlignUp(x) <= g.memSize
    ensures g.Fits(x) ==> g.Rounded(x) == if g.AlignUp(x) < g.minSize then g.minSize else g.AlignUp(x)
  {
    var up := g.AlignUp(x);
    assert g.Aligned(up) && x <= up < x + g.align by { AlignUpIs(g, x); }
    assert up <= g.width by {
      if up > g.width {
        AlignGap(g, g.width, up);
      }
    }
    assert up % g.width == if up == g.width then 0 else up by { WidthMod(up, g.width); }
    AlignGap(g, g.memSize, g.width);
  }

  lemma {:induction false} SmallUnaligned(g: Config, x: nat)
    requires 0 < x < g.align
    ensures !g.Aligned(x)
  {
    DivUnique(x, g.align, 0, x);
  }

  // ---------- rows of blocks ----------

  /** Block i ends before any later block starts. */
  lemma {:induction false} Ordered(g: Config, s: Layout, i: nat, j: nat)
    requires Tiles(g, s) && i < j <= |s|
    ensures End(g, s[i]) <= Off(g, s, j)
    decreases j - i
  {
    assert GoodBlock(g, s, i);
    if i + 1 < j {
      Ordered(g, s, i + 1, j);
    }
  }

  /** The row with the blocks i..j replaced. */
  function Replace(s: Layout, i: nat, j: nat, mid: Layout): Layout
    requires i <= j <= |s|
  {
    s[..i] + mid + s[j..]
  }

  ghost predicate GoodMid(g: Config, s: Layout, i: nat, j: nat, mid: Layout, k: nat)
    requires g.Ok() && k < |mid|
  {
    && mid[k].len >= g.minSize && g.Aligned(mid[k].len) && g.Aligned(mid[k].off)
    && End(g, mid[k]) == if k + 1 < |mid| then mid[k + 1].off else Off(g, s, j)
  }

  /** mid covers exactly the stretch of the blocks i..j. */
  ghost predicate Covers(g: Config, s: Layout, i: nat, j: nat, mid: Layout)
    requires g.Ok()
  {
    && i < j <= |s| && |mid| > 0 && mid[0].off == Off(g, s, i)
    && forall k {:trigger GoodMid(g, s, i, j, mid, k)} | 0 <= k < |mid| :: GoodMid(g, s, i, j, mid, k)
  }

  lemma {:induction false} ReplaceTiles(g: Config, s: Layout, i: nat, j: nat, mid: Layout)
    requires Tiles(g, s) && Covers(g, s, i, j, mid)
    ensures Tiles(g, Replace(s, i, j, mid))
  {
    var n := Replace(s, i, j, mid);
    assert GoodMid(g, s, i, j, mid, 0);
    forall k | 0 <= k < |n| ensures GoodBlock(g, n, k) {
      if k < i {
        assert GoodBlock(g, s, k);
      } else if k < i + |mid| {
        assert GoodMid(g, s, i, j, mid, k - i);
      } else {
        assert GoodBlock(g, s, k - |mid| - i + j);
      }
    }
  }

  lemma {:induction false} ReplaceCoalesced(s: Layout, i: nat, j: nat, mid: Layout)
    requires Coalesced(s) && i < j <= |s| && |mid| > 0 && Coalesced(mid)
    requires i > 0 ==> s[i - 1].used || mid[0].used
    requires j < |s| ==> mid[|mid| - 1].used || s[j].used
    ensures Coalesced(Replace(s, i, j, mid))
  {
    var n := Replace(s, i, j, mid);
    forall k | 0 <= k < |n| - 1 ensures Apart(n, k) {
      if k + 1 < i {
        assert Apart(s, k);
      } else if i <= k < i + |mid| - 1 {
        assert Apart(mid, k - i);
      } else if k >= i + |mid| {
        assert Apart(s, k - |mid| - i + j);
      }
    }
  }

  lemma {:induction false} ReplaceLive(g: Config, s: Layout, i: nat, j: nat, mid: Layout)
    requires Tiles(g, s) && i < j <= |s|
    ensures Live(Replace(s, i, j, mid)) == Live(s) - Live(s[i..j]) + Live(mid)
  {
    var n := Replace(s, i, j, mid);
    assert s == s[..i] + s[i..j] + s[j..];
    forall b | b in s[..i] || b in s[j..] ensures b !in s[i..j] {
      if b in s[i..j] {
        var k :| 0 <= k < |s[i..j]| && s[i..j][k] == b;
        if b in s[..i] {
          var l :| 0 <= l < i && s[l] == b;
          Ordered(g, s, l, i + k);
        } else {
          var l :| 0 <= l < |s[j..]| && s[j..][l] == b;
          Ordered(g, s, i + k, j + l);
        }
      }
    }
  }

  /** Any two blocks of a row are disjoint, headers included, and lie inside the heap. */
  lemma {:induction false} BlocksDisjoint(g: Config, s: Layout, a: Block, b: Block)
    requires Tiles(g, s) && a in s && b in s
    ensures End(g, a) <= g.memSize
    ensures a != b ==> End(g, a) <= b.off || End(g, b) <= a.off
  {
    var i :| 0 <= i < |s| && s[i] == a;
    var j :| 0 <= j < |s| && s[j] == b;
    Ordered(g, s, i, |s|);
    if i < j {
      Ordered(g, s, i, j);
    } else if j < i {
      Ordered(g, s, j, i);
    }
  }

  // ---------- searching ----------

  predicate FreeFor(b: Block, size: nat) {
    !b.used && b.len >= size
  }

  /** The first block from index i on that is free and has size bytes; |s| if there is none. */
  function FirstFit(s: Layout, size: nat, i: nat): (r: nat)
    requires i <= |s|
    ensures i <= r <= |s| && (r < |s| ==> FreeFor(s[r], size))
    ensures forall k {:trigger s[k]} | i <= k < r :: !FreeFor(s[k], size)
    decreases |s| - i
  {
    if i == |s| || FreeFor(s[i], size) then i else FirstFit(s, size, i + 1)
  }

  lemma {:induction false} FirstFitUnique(s: Layout, size: nat, r: nat)
    requires r <= |s| && (r < |s| ==> FreeFor(s[r], size))
    requires forall k {:trigger s[k]} | 0 <= k < r :: !FreeFor(s[k], size)
    ensures FirstFit(s, size, 0) == r
  {
  }

  /** The lowest free block's offset, or the end marker's. */
  function LowestFree(g: Config, s: Layout): nat {
    Off(g, s, FirstFit(s, 0, 0))
  }

  // ---------- the operations ----------

  /** The blocks i..j turned into an allocated one of n bytes and a free rest. */
  function Cut(g: Config, s: Layout, i: nat, j: nat, n: nat): Layout
    requires i < j <= |s| && s[i].off + 2 * g.hdr + n <= Off(g, s, j)
  {
    var rest := s[i].off + g.hdr + n;
    Replace(s, i, j, [Block(s[i].off, n, true), Block(rest, Off(g, s, j) - rest - g.hdr, false)])
  }

  /** Allocation of size bytes from the free block i: split it if the rest can hold a block. */
  function Alloc(g: Config, s: Layout, i: nat, size: nat): Layout
    requires i < |s| && Adjacent(g, s, i)
  {
    if s[i].len >= size + g.hdr + g.minSize then Cut(g, s, i, i + 1, size)
    else Replace(s, i, i + 1, [s[i].(used := true)])
  }

  /** Blocks i - 1, i and i + 1, as far as they exist, follow one another without gaps. */
  ghost predicate Adjacent(g: Config, s: Layout, i: nat)
    requires i < |s|
  {
    && End(g, s[i]) == Off(g, s, i + 1)
    && (i > 0 ==> End(g, s[i - 1]) == s[i].off)
    && (i + 1 < |s| ==> End(g, s[i + 1]) == Off(g, s, i + 2))
  }

  lemma {:induction false} TilesAdjacent(g: Config, s: Layout, i: nat)
    requires Tiles(g, s) && i < |s|
    ensures Adjacent(g, s, i)
  {
    assert GoodBlock(g, s, i);
    if i > 0 {
      assert GoodBlock(g, s, i - 1);
    }
    if i + 1 < |s| {
      assert GoodBlock(g, s, i + 1);
    }
  }

  /** The stretch a freed block i is united to: its free neighbours belong to it. */
  function Low(s: Layout, i: nat): nat
    requires i < |s|
  {
    if i > 0 && !s[i - 1].used then i - 1 else i
  }

  function High(s: Layout, i: nat): nat
    requires i < |s|
  {
    if i + 1 < |s| && !s[i + 1].used then i + 2 else i + 1
  }

  /** Freeing block i: it is united with the free neighbours it has. */
  function Release(g: Config, s: Layout, i: nat): Layout
    requires i < |s| && Adjacent(g, s, i)
  {
    var lo, hi := Low(s, i), High(s, i);
    Replace(s, lo, hi, [Block(s[lo].off, Off(g, s, hi) - s[lo].off - g.hdr, false)])
  }

  /** Shrinking block i to n bytes: the bytes given up go to a free successor, or become a free
    * block if they can hold one, or stay unused. */
  function Trim(g: Config, s: Layout, i: nat, n: nat): Layout
    requires i < |s| && Adjacent(g, s, i)
  {
    if n >= s[i].len then s
    else if i + 1 < |s| && !s[i + 1].used then Cut(g, s, i, i + 2, n)
    else if n + g.hdr + g.minSize <= s[i].len then Cut(g, s, i, i + 1, n)
    else s
  }

  lemma {:induction false} CutGood(g: Config, s: Layout, i: nat, j: nat, n: nat)
    requires WellFormed(g, s) && i < j <= |s| && (j < |s| ==> s[j].used)
    requires g.Aligned(n) && n >= g.minSize && s[i].off + 2 * g.hdr + n + g.minSize <= Off(g, s, j)
    ensures WellFormed(g, Cut(g, s, i, j, n))
    ensures Live(Cut(g, s, i, j, n)) == Live(s) - Live(s[i..j]) + {Block(s[i].off, n, true)}
  {
    var rest := s[i].off + g.hdr + n;
    var mid := [Block(s[i].off, n, true), Block(rest, Off(g, s, j) - rest - g.hdr, false)];
    assert GoodBlock(g, s, i);
    OffAligned(g, s, j);
    AlignSum(g, s[i].off, g.hdr);
    AlignSum(g, s[i].off + g.hdr, n);
    AlignSum(g, Off(g, s, j), rest);
    AlignSum(g, Off(g, s, j) - rest, g.hdr);
    assert GoodMid(g, s, i, j, mid, 0) && GoodMid(g, s, i, j, mid, 1);
    ReplaceTiles(g, s, i, j, mid);
    assert Apart(mid, 0);
    ReplaceCoalesced(s, i, j, mid);
    ReplaceLive(g, s, i, j, mid);
    assert mid[0] in mid;
    assert Live(mid) == {mid[0]};
  }

  lemma {:induction false} OffAligned(g: Config, s: Layout, j: nat)
    requires Tiles(g, s) && j <= |s|
    ensures g.Aligned(Off(g, s, j))
  {
    if j < |s| {
      assert GoodBlock(g, s, j);
    }
  }

  lemma {:induction false} LiveOne(g: Config, s: Layout, i: nat)
    requires Tiles(g, s) && i < |s|
    ensures Live(s[i..i + 1]) == if s[i].used then {s[i]} else {}
    ensures s[i].used ==> s[i] in Live(s)
    ensures !s[i].used ==> forall n :: Block(s[i].off, n, true) !in Live(s)
  {
    assert s[i..i + 1] == [s[i]];
    forall n ensures !s[i].used ==> Block(s[i].off, n, true) !in Live(s) {
      if !s[i].used && Block(s[i].off, n, true) in s {
        assert GoodBlock(g, s, i);
        BlocksDisjoint(g, s, s[i], Block(s[i].off, n, true));
      }
    }
  }

  /** Allocation: the row stays well formed, and exactly one live block is new; it starts where the
    * free block did and has the size asked for, or all of the free block if no other block fits behind. */
  lemma {:induction false} AllocGood(g: Config, s: Layout, i: nat, size: nat)
    requires WellFormed(g, s) && i < |s| && FreeFor(s[i], size) && g.Aligned(size) && size >= g.minSize
    ensures Adjacent(g, s, i) && WellFormed(g, Alloc(g, s, i, size))
    ensures var b := Alloc(g, s, i, size)[i];
            && b == Block(s[i].off, if size + g.hdr + g.minSize <= s[i].len then size else s[i].len, true)
            && b !in Live(s) && Live(Alloc(g, s, i, size)) == Live(s) + {b}
  {
    TilesAdjacent(g, s, i);
    assert GoodBlock(g, s, i);
    assert i + 1 < |s| ==> s[i + 1].used by {
      if i + 1 < |s| { assert Apart(s, i); }
    }
    LiveOne(g, s, i);
    if size + g.hdr + g.minSize <= s[i].len {
      CutGood(g, s, i, i + 1, size);
    } else {
      var mid := [s[i].(used := true)];
      assert GoodMid(g, s, i, i + 1, mid, 0);
      ReplaceTiles(g, s, i, i + 1, mid);
      ReplaceCoalesced(s, i, i + 1, mid);
      ReplaceLive(g, s, i, i + 1, mid);
      assert mid[0] in mid;
      assert Live(mid) == {mid[0]};
    }
  }

  lemma {:induction false} UnitedNeighbours(s: Layout, i: nat)
    requires Coalesced(s) && i < |s| && s[i].used
    ensures Low(s, i) > 0 ==> s[Low(s, i) - 1].used
    ensures High(s, i) < |s| ==> s[High(s, i)].used
    ensures Live(s[Low(s, i)..High(s, i)]) == {s[i]}
  {
    var lo, hi := Low(s, i), High(s, i);
    if lo > 0 {
      assert Apart(s, lo - 1);
    }
    if hi < |s| {
      assert Apart(s, hi - 1);
    }
    assert s[i] == s[lo..hi][i - lo];
    forall b | b in s[lo..hi] && b.used ensures b == s[i] {
      var k :| 0 <= k < hi - lo && s[lo..hi][k] == b;
      assert s[lo + k] == b;
    }
  }

  /** Freeing: the row stays well formed, and exactly the block freed is no longer live. */
  lemma {:induction false} ReleaseGood(g: Config, s: Layout, i: nat)
    requires WellFormed(g, s) && i < |s| && s[i].used
    ensures Adjacent(g, s, i)
    ensures WellFormed(g, Release(g, s, i)) && Live(Release(g, s, i)) == Live(s) - {s[i]}
  {
    TilesAdjacent(g, s, i);
    var lo, hi := Low(s, i), High(s, i);
    var mid := [Block(s[lo].off, Off(g, s, hi) - s[lo].off - g.hdr, false)];
    OffAligned(g, s, hi);
    assert GoodBlock(g, s, i) && GoodBlock(g, s, lo);
    AlignSum(g, Off(g, s, hi), s[lo].off);
    AlignSum(g, Off(g, s, hi) - s[lo].off, g.hdr);
    assert GoodMid(g, s, lo, hi, mid, 0);
    ReplaceTiles(g, s, lo, hi, mid);
    UnitedNeighbours(s, i);
    ReplaceCoalesced(s, lo, hi, mid);
    ReplaceLive(g, s, lo, hi, mid);
    assert Live(mid) == {};
  }

  lemma {:induction false} FreeBehind(g: Config, s: Layout, i: nat)
    requires WellFormed(g, s) && i + 1 < |s| && s[i].used && !s[i + 1].used
    ensures i + 2 < |s| ==> s[i + 2].used
    ensures Live(s[i..i + 2]) == {s[i]}
  {
    if i + 2 < |s| {
      assert Apart(s, i + 1);
    }
    assert s[i..i + 2] == [s[i], s[i + 1]];
    assert s[i] in s[i..i + 2];
  }

  /** Trimming: the row stays well formed, and of the live blocks only the one trimmed changes. It gets the new
    * length if and only if that is less, and the bytes given up join a free successor or can hold a block. The
    * free block behind then starts at the new end and reaches as far as before. */
  lemma {:induction false} TrimGood(g: Config, s: Layout, i: nat, n: nat)
    requires WellFormed(g, s) && i < |s| && s[i].used && g.Aligned(n) && g.minSize <= n <= s[i].len
    ensures Adjacent(g, s, i) && WellFormed(g, Trim(g, s, i, n))
    ensures var b := Trim(g, s, i, n)[i];
            && b.off == s[i].off && b.used && Live(Trim(g, s, i, n)) == Live(s) - {s[i]} + {b}
            && (b.len == n || b.len == s[i].len)
            && (n < s[i].len ==>
                  (b.len == n <==> (i + 1 < |s| && !s[i + 1].used) || n + g.hdr + g.minSize <= s[i].len))
    ensures var t := Trim(g, s, i, n);
            n < s[i].len && t[i].len == n ==>
              && i + 1 < |t| && !t[i + 1].used && t[i + 1].off == s[i].off + g.hdr + n
              && End(g, t[i + 1]) == End(g, s[if i + 1 < |s| && !s[i + 1].used then i + 1 else i])
  {
    TilesAdjacent(g, s, i);
    assert GoodBlock(g, s, i);
    LiveOne(g, s, i);
    if i + 1 < |s| {
      assert GoodBlock(g, s, i + 1);
    }
    if n == s[i].len {
    } else if i + 1 < |s| && !s[i + 1].used {
      FreeBehind(g, s, i);
      CutGood(g, s, i, i + 2, n);
    } else if n + g.hdr + g.minSize <= s[i].len {
      CutGood(g, s, i, i + 1, n);
    }
  }

  // ---------- what one call undoes ----------

  /** Trimming a block to no more than its length is never refused, which pbuf_realloc relies on. */
  lemma {:induction false} TrimFits(g: Config, s: Layout, i: nat, n: nat)
    requires WellFormed(g, s) && i < |s| && n <= s[i].len
    ensures n < g.width && g.Fits(n) && g.Rounded(n) <= s[i].len
  {
    assert GoodBlock(g, s, i);
    TilesAdjacent(g, s, i);
    BlocksDisjoint(g, s, s[i], s[i]);
    AlignUpIs(g, n);
    if s[i].len < g.AlignUp(n) {
      AlignGap(g, s[i].len, g.AlignUp(n));
    }
    RoundedIs(g, n);
  }

  /** Freeing what was just allocated restores the row exactly. */
  lemma {:induction false} AllocRelease(g: Config, s: Layout, i: nat, size: nat)
    requires WellFormed(g, s) && i < |s| && FreeFor(s[i], size) && g.Aligned(size) && size >= g.minSize
    ensures Adjacent(g, s, i) && Adjacent(g, Alloc(g, s, i, size), i)
    ensures Release(g, Alloc(g, s, i, size), i) == s
  {
    AllocGood(g, s, i, size);
    var n := Alloc(g, s, i, size);
    ReleaseGood(g, n, i);
    assert i > 0 ==> s[i - 1].used by {
      if i > 0 { assert Apart(s, i - 1); }
    }
    assert i + 1 < |s| ==> s[i + 1].used by {
      if i + 1 < |s| { assert Apart(s, i); }
    }
    assert s == s[..i] + [s[i]] + s[i + 1..];
    if s[i].len >= size + g.hdr + g.minSize {
      assert n[..i] == s[..i] && n[i + 2..] == s[i + 1..];
    } else {
      assert n[..i] == s[..i] && n[i + 1..] == s[i + 1..];
    }
  }

  /** A well-formed row without live blocks is the initial one: everything freed is everything
    * united. */
  lemma {:induction false} AllFreed(g: Config, s: Layout)
    requires WellFormed(g, s) && Live(s) == {}
    ensures s == Initial(g)
  {
    forall i | 0 <= i < |s| ensures !s[i].used {
      assert s[i].used <==> s[i] in Live(s);
    }
    if |s| > 1 {
      FirstTwoApart(s);
    }
    assert GoodBlock(g, s, 0);
  }

  /** The allocated blocks determine the row: two well-formed rows with the same ones are the same, so that the
    * laws about what is live say all about the row. */
  lemma {:induction false} LiveDetermines(g: Config, s: Layout, t: Layout)
    requires WellFormed(g, s) && WellFormed(g, t) && Live(s) == Live(t)
    ensures s == t
  {
    SameFrom(g, s, t, 0);
  }

  lemma {:induction false} SameFrom(g: Config, s: Layout, t: Layout, k: nat)
    requires WellFormed(g, s) && WellFormed(g, t) && Live(s) == Live(t)
    requires k <= |s| && k <= |t| && s[..k] == t[..k]
    ensures s == t
    decreases |s| - k
  {
    if k > 0 {
      assert GoodBlock(g, s, k - 1) && GoodBlock(g, t, k - 1);
      assert s[..k][k - 1] == t[..k][k - 1];
    }
    if k < |s| && k < |t| {
      SameBlock(g, s, t, k);
      SameFrom(g, s, t, k + 1);
    } else if k < |s| {
      BlocksDisjoint(g, s, s[k], s[k]);
    } else if k < |t| {
      BlocksDisjoint(g, t, t[k], t[k]);
    }
  }

  lemma {:induction false} SameBlock(g: Config, s: Layout, t: Layout, k: nat)
    requires WellFormed(g, s) && WellFormed(g, t) && Live(s) == Live(t)
    requires k < |s| && k < |t| && s[k].off == t[k].off
    ensures s[k] == t[k]
  {
    if s[k].used || t[k].used {
      var b := if s[k].used then s[k] else t[k];
      assert b in Live(s);
      BlocksDisjoint(g, s, s[k], b);
      BlocksDisjoint(g, t, t[k], b);
      assert GoodBlock(g, s, k) && GoodBlock(g, t, k);
    } else {
      NotShorter(g, s, t, k);
      NotShorter(g, t, s, k);
    }
  }

  lemma {:induction false} NotShorter(g: Config, s: Layout, t: Layout, k: nat)
    requires WellFormed(g, s) && WellFormed(g, t) && Live(s) == Live(t)
    requires k < |s| && k < |t| && s[k].off == t[k].off && !s[k].used && !t[k].used
    ensures s[k].len >= t[k].len
  {
    assert GoodBlock(g, s, k);
    BlocksDisjoint(g, t, t[k], t[k]);
    if s[k].len < t[k].len {
      assert Apart(s, k) && s[k + 1] in Live(s);
      BlocksDisjoint(g, t, t[k], s[k + 1]);
    }
  }

  lemma {:induction false} FirstTwoApart(s: Layout)
    requires Coalesced(s) && |s| > 1
    ensures s[0].used || s[1].used
  {
    assert Apart(s, 0);
  }

  lemma {:induction false} InitialGood(g: Config)
    requires g.Ok()
    ensures WellFormed(g, Initial(g)) && Live(Initial(g)) == {}
  {
    var s := Initial(g);
    AlignSum(g, g.memSize, g.hdr);
    AlignSum(g, 0, 0);
    DivUnique(0, g.align, 0, 0);
    assert GoodBlock(g, s, 0);
  }

  // ---------- runs ----------

  /** A call: the size asked for, or the offset of the header of the block meant. */
  datatype Call = Malloc(size: nat) | Free(off: nat) | Shrink(off: nat, size: nat)

  /** The index of the allocated block whose header is at an offset; |s| if there is none. */
  function Find(s: Layout, off: nat, i: nat): (r: nat)
    requires i <= |s|
    ensures i <= r <= |s| && (r < |s| ==> s[r].off == off && s[r].used)
    ensures forall k {:trigger s[k]} | i <= k < r :: !(s[k].off == off && s[k].used)
    decreases |s| - i
  {
    if i == |s| || (s[i].off == off && s[i].used) then i else Find(s, off, i + 1)
  }

  /** The row after a call; a call that fails leaves it as it is. */
  ghost function Step(g: Config, s: Layout, call: Call): Layout
    requires WellFormed(g, s)
  {
    match call
    case Malloc(size) =>
      var i := if size == 0 || size >= g.width || !g.Fits(size) then |s| else FirstFit(s, g.Rounded(size), 0);
      if i == |s| then s else (TilesAdjacent(g, s, i); Alloc(g, s, i, g.Rounded(size)))
    case Free(off) =>
      var i := Find(s, off, 0);
      if i == |s| then s else (TilesAdjacent(g, s, i); Release(g, s, i))
    case Shrink(off, size) =>
      var i := Find(s, off, 0);
      if i == |s| || size >= g.width || !g.Fits(size) then s
          else (TilesAdjacent(g, s, i); Trim(g, s, i, g.Rounded(size)))
  }

  lemma {:induction false} StepGood(g: Config, s: Layout, call: Call)
    requires WellFormed(g, s)
    ensures WellFormed(g, Step(g, s, call))
  {
    match call
    case Malloc(size) =>
      var i := if size == 0 || size >= g.width || !g.Fits(size) then |s| else FirstFit(s, g.Rounded(size), 0);
      if i < |s| {
        RoundedIs(g, size);
        AllocGood(g, s, i, g.Rounded(size));
      }
    case Free(off) =>
      var i := Find(s, off, 0);
      if i < |s| {
        ReleaseGood(g, s, i);
      }
    case Shrink(off, size) =>
      var i := Find(s, off, 0);
      if i < |s| && size < g.width && g.Fits(size) {
        RoundedIs(g, size);
        if g.Rounded(size) <= s[i].len {
          TrimGood(g, s, i, g.Rounded(size));
        }
      }
  }

  /** The row after any sequence of calls from mem_init on. It is well formed, so the next call is
    * possible. */
  ghost function After(g: Config, calls: seq<Call>): (s: Layout)
    requires g.Ok()
    ensures WellFormed(g, s)
  {
    InitialGood(g);
    if calls == [] then Initial(g)
    else
      var s := After(g, calls[..|calls| - 1]);
      StepGood(g, s, calls[|calls| - 1]);
      Step(g, s, calls[|calls| - 1])
  }

  /** Whenever all that was allocated in a run has been freed, the row is the initial one again. */
  lemma {:induction false} AllFreedInRun(g: Config, calls: seq<Call>)
    requires g.Ok() && Live(After(g, calls)) == {}
    ensures After(g, calls) == Initial(g)
  {
    AllFreed(g, After(g, calls));
  }
}
