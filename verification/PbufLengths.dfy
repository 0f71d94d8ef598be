/** The field tot_len of core/pbuf.c over runs of calls: which calls keep it right modulo 2^16 in all pbufs when
  * chains share pbufs. */
module PbufLengths {
  import opened Words
  import opened PbufMemory
  import opened PbufRef
  import opened PbufResize
  import opened PbufAlloc
  import opened PbufRun

  function TotOf(m: Mem, q: Addr): u16 {
    if q in m then m[q].totLen else 0
  }

  /** tot_len is the pbuf's own length and tot_len of the next pbuf. */
  predicate LengthRight(m: Mem, a: Addr)
    requires a in m
  {
    m[a].totLen == Up(m[a].Len(), TotOf(m, m[a].next))
  }

  /** Addition and subtraction in 16 bits. */
  function Up(x: u16, y: u16): u16 {
    if x + y < U16 then x + y else x + y - U16
  }

  predicate Small(len: int) {
    -0x1_0000 < len < 0x1_0000
  }

  function Down(x: u16, len: int): u16
    requires Small(len)
  {
    if x - len < 0 then x - len + U16 else if x - len < U16 then x - len else x - len - U16
  }

  lemma {:induction false} UpIs(x: u16, y: u16)
    ensures Up(x, y) == (x + y) % U16
  {
  }

  lemma {:induction false} DownIs(x: u16, len: int)
    requires Small(len)
    ensures Down(x, len) == (x - len) % U16
  {
  }

  ghost predicate Lengths(m: Mem) {
    forall a {:trigger LengthRight(m, a)} | a in m :: LengthRight(m, a)
  }

  ghost predicate RightAlong(m: Mem, a: Addr, c: seq<Addr>) {
    IsChain(m, a, c) && InMem(m, c) ==> ModTot(m, c)
  }

  /** That is so if and only if the field is right along every chain. */
  lemma {:induction false} LengthsIff(m: Mem)
    requires Grounded(m) && NULL !in m
    ensures Lengths(m) <==> forall a, c :: RightAlong(m, a, c)
  {
    if Lengths(m) {
      forall a, c ensures RightAlong(m, a, c) {
        if IsChain(m, a, c) && InMem(m, c) { LengthsAlong(m, a, c); }
      }
    }
    if forall a, c :: RightAlong(m, a, c) {
      forall a | a in m ensures LengthRight(m, a) {
        assert HasChain(m, a);
        var c :| IsChain(m, a, c);
        ChainInMem(m, a, c);
        assert RightAlong(m, a, c);
        LengthAt(m, a, c);
      }
    }
  }

  lemma {:induction false} LengthAt(m: Mem, a: Addr, c: seq<Addr>)
    requires NULL !in m && a in m && IsChain(m, a, c) && InMem(m, c) && ModTot(m, c)
    ensures LengthRight(m, a)
  {
    var d := c[1..];
    ChainInMem(m, m[a].next, d);
    assert ModTot(m, d) && TotOf(m, m[a].next) == |Flat(m, d)| % U16;
    AddMod(m[a].Len(), |Flat(m, d)|, |Flat(m, d)| % U16);
    UpIs(m[a].Len(), TotOf(m, m[a].next));
  }

  lemma {:induction false} LengthsAlong(m: Mem, a: Addr, c: seq<Addr>)
    requires Lengths(m) && NULL !in m && IsChain(m, a, c) && InMem(m, c)
    ensures ModTot(m, c) && TotOf(m, a) == |Flat(m, c)| % U16
    decreases |c|
  {
    if a != NULL {
      ChainInMem(m, m[a].next, c[1..]);
      LengthsAlong(m, m[a].next, c[1..]);
      assert LengthRight(m, a);
      UpIs(m[a].Len(), TotOf(m, m[a].next));
      AddMod(m[a].Len(), |Flat(m, c[1..])|, |Flat(m, c[1..])| % U16);
    }
  }

  // ---------- a change along part of a chain ----------

  /** No pbuf off c leads to a pbuf of c. */
  ghost predicate Unshared(m: Mem, c: seq<Addr>) {
    forall b | b in m && b !in c :: m[b].next !in c
  }

  /** From m to n, the length fields along c go down by len; the last pbuf of c is right afterwards, the others
    * keep their links and bytes, and pbufs off c are as before. */
  ghost predicate Shifted(m: Mem, n: Mem, c: seq<Addr>, len: int) {
    && c != [] && InMem(m, c) && n.Keys == m.Keys && Small(len)
    && (forall a | a in c :: n[a].totLen == Down(m[a].totLen, len))
    && (forall i {:trigger Inner(m, n, c, i)} | 0 <= i < |c| - 1 :: Inner(m, n, c, i))
    && c[|c| - 1] in n && LengthRight(n, c[|c| - 1])
    && (forall a | a in m && a !in c :: SameLength(m, n, a))
  }

  /** The i-th pbuf of c leads to the next one before and after, with the same bytes. */
  ghost predicate Inner(m: Mem, n: Mem, c: seq<Addr>, i: nat)
    requires i + 1 < |c|
  {
    && c[i] in m && c[i] in n
    && m[c[i]].next == c[i + 1] && n[c[i]].next == c[i + 1] && n[c[i]].data == m[c[i]].data
  }

  ghost predicate SameLength(m: Mem, n: Mem, a: Addr) {
    a in m && a in n && n[a].next == m[a].next && n[a].data == m[a].data && n[a].totLen == m[a].totLen
  }

  /** All length fields are right again if and only if they have not changed, or nobody else leads to c. */
  lemma {:induction false} ShiftedLengths(m: Mem, n: Mem, c: seq<Addr>, len: int)
    requires Lengths(m) && NULL !in m && Shifted(m, n, c, len)
    ensures Lengths(n) <==> len == 0 || Unshared(m, c)
    ensures forall a | a in m && a !in c && (len == 0 || m[a].next !in c) :: LengthRight(n, a)
    ensures forall a | a in m && a !in c && len != 0 && m[a].next in c :: !LengthRight(n, a)
  {
    forall a | a in m ensures LengthRight(n, a) <==> a in c || len == 0 || m[a].next !in c {
      if a in c {
        ShiftedOn(m, n, c, len, a);
      } else {
        ShiftedOff(m, n, c, len, a);
      }
    }
    if Lengths(n) {
      forall b | b in m && b !in c ensures len == 0 || m[b].next !in c { assert LengthRight(n, b); }
    }
  }

  lemma {:induction false} ShiftedOn(m: Mem, n: Mem, c: seq<Addr>, len: int, a: Addr)
    requires Lengths(m) && Shifted(m, n, c, len) && a in c
    ensures a in n && LengthRight(n, a)
  {
    var i :| 0 <= i < |c| && c[i] == a;
    if i < |c| - 1 {
      var q := c[i + 1];
      assert q in c && Inner(m, n, c, i);
      assert TotOf(m, q) == m[q].totLen && TotOf(n, q) == Down(m[q].totLen, len);
      assert LengthRight(m, a);
      ShiftBoth(m[a].totLen, m[a].Len(), m[q].totLen, len);
    } else {
      assert a == c[|c| - 1];
    }
  }

  lemma {:induction false} ShiftedOff(m: Mem, n: Mem, c: seq<Addr>, len: int, a: Addr)
    requires Lengths(m) && Shifted(m, n, c, len) && a in m && a !in c
    ensures LengthRight(n, a) <==> len == 0 || m[a].next !in c
  {
    var q := m[a].next;
    assert LengthRight(m, a) && SameLength(m, n, a);
    if q in c {
      ShiftTail(m[a].totLen, m[a].Len(), m[q].totLen, len);
    } else if q in m {
      assert SameLength(m, n, q);
    }
  }

  lemma {:induction false} ShiftBoth(tot: u16, own: u16, next: u16, len: int)
    requires tot == Up(own, next) && Small(len)
    ensures Down(tot, len) == Up(own, Down(next, len))
  {
  }

  lemma {:induction false} ShiftTail(tot: u16, own: u16, next: u16, len: int)
    requires tot == Up(own, next) && Small(len)
    ensures tot == Up(own, Down(next, len)) <==> len == 0
  {
  }

  /** Where nothing but counts changes, and pbufs go away that nobody leads to. */
  lemma {:induction false} SurvivorsSame(m: Mem, n: Mem, a: Addr)
    requires a in n && n.Keys <= m.Keys && (n[a].next == NULL || n[a].next in n) && NULL !in m
    requires forall b | b in n :: SameLength(m, n, b)
    ensures LengthRight(n, a) <==> LengthRight(m, a)
  {
    assert SameLength(m, n, a);
    if n[a].next != NULL { assert SameLength(m, n, n[a].next); }
  }

  lemma {:induction false} FreeSame(m: Mem, c: seq<Addr>)
    ensures AfterFree(m, c).Keys <= m.Keys && forall b | b in AfterFree(m, c) :: SameLength(m, AfterFree(m, c), b)
    decreases |c|
  {
    if c != [] && c[0] in m && m[c[0]].ref == 1 {
      FreeSame(m - {c[0]}, c[1..]);
    }
  }

  /** pbuf_free changes nothing in the pbufs that are left. */
  lemma {:induction false} FreeLengths(m: Mem, holders: multiset<Addr>, c: seq<Addr>)
    requires NULL !in m && Balanced(AfterFree(m, c), holders)
    ensures forall a | a in AfterFree(m, c) :: a in m && (LengthRight(AfterFree(m, c), a) <==> LengthRight(m, a))
  {
    var n := AfterFree(m, c);
    FreeSame(m, c);
    forall a | a in n ensures a in m && (LengthRight(n, a) <==> LengthRight(m, a)) {
      assert Counted(n, holders, a);
      SurvivorsSame(m, n, a);
    }
  }

  /** The same behind a pbuf_free of pbufs that lead to nothing on c. */
  lemma {:induction false} ShiftedFreed(m: Mem, cut: Mem, c: seq<Addr>, len: int, rest: seq<Addr>,
                                        holders: multiset<Addr>)
    requires Lengths(m) && NULL !in m && Shifted(m, cut, c, len) && Balanced(AfterFree(cut, rest), holders)
    requires forall b | b in m && b !in c && m[b].next in c :: b in AfterFree(cut, rest)
    ensures Lengths(AfterFree(cut, rest)) <==> len == 0 || Unshared(m, c)
  {
    var n := AfterFree(cut, rest);
    ShiftedLengths(m, cut, c, len);
    FreeLengths(cut, holders, rest);
    if !(len == 0 || Unshared(m, c)) {
      var b :| b in m && b !in c && m[b].next in c;
      assert !LengthRight(cut, b) && b in n;
      assert !LengthRight(n, b);
    }
  }

  // ---------- each call ----------

  lemma {:induction false} ChainLinks(m: Mem, p: Addr, c: seq<Addr>, i: nat)
    requires IsChain(m, p, c) && i < |c|
    ensures c[i] in m && m[c[i]].next == if i + 1 < |c| then c[i + 1] else NULL
  {
    ChainSuffix(m, p, c, i);
    ChainSuffix(m, p, c, i + 1);
  }

  /** pbuf_cat: the tail is empty modulo 2^16, or no pbuf off the head chain leads to one of its pbufs. */
  lemma {:induction false} CatLengths(m: Mem, h: Addr, c: seq<Addr>, t: Addr)
    requires Lengths(m) && NULL !in m && IsChain(m, h, c) && h != NULL && t in m && t !in c
    ensures Lengths(AfterCat(m, c, t, m[t].totLen)) <==> m[t].totLen == 0 || Unshared(m, c)
  {
    var n, len := AfterCat(m, c, t, m[t].totLen), m[t].totLen as int;
    CatExactly(m, h, c, t, len);
    CatShifted(m, n, h, c, t);
    ShiftedLengths(m, n, c, -len);
  }

  lemma {:induction false} CatShifted(m: Mem, n: Mem, h: Addr, c: seq<Addr>, t: Addr)
    requires Lengths(m) && NULL !in m && IsChain(m, h, c) && h != NULL && t in m && t !in c
    requires CatResult(m, n, c, t, m[t].totLen)
    ensures Shifted(m, n, c, -(m[t].totLen as int))
  {
    ChainInMem(m, h, c);
    forall i {:trigger Inner(m, n, c, i)} | 0 <= i < |c| - 1 ensures Inner(m, n, c, i) {
      NotLast(m, h, c, i);
    }
    forall a | a in c ensures n[a].totLen == Down(m[a].totLen, -(m[t].totLen as int)) {
      DownIs(m[a].totLen, -(m[t].totLen as int));
    }
    CatLast(m, n, h, c, t);
  }

  lemma {:induction false} CatLast(m: Mem, n: Mem, h: Addr, c: seq<Addr>, t: Addr)
    requires Lengths(m) && NULL !in m && IsChain(m, h, c) && h != NULL && t in m && t !in c
    requires CatResult(m, n, c, t, m[t].totLen)
    ensures c[|c| - 1] in n && LengthRight(n, c[|c| - 1])
  {
    var last := c[|c| - 1];
    ChainLinks(m, h, c, |c| - 1);
    assert last in c && LengthRight(m, last);
    UpIs(m[last].Len(), m[t].totLen);
  }

  lemma {:induction false} NotLast(m: Mem, p: Addr, c: seq<Addr>, i: nat)
    requires IsChain(m, p, c) && i < |c| - 1
    ensures c[i] in c && c[i] in m && m[c[i]].next == c[i + 1] && c[i] != c[|c| - 1]
  {
    ChainDistinct(m, p, c);
    ChainLinks(m, p, c, i);
  }

  /** Two chains with a common last pbuf, and a pbuf of its own. */
  function SharedTail(): Mem {
    map[1 := Pbuf(3, 0, [0], 2, 1, false), 2 := Pbuf(3, 0, [0], 2, 1, false),
        3 := Pbuf(NULL, 0, [0], 1, 2, false), 4 := Pbuf(NULL, 0, [0], 1, 1, false)]
  }

  /** pbuf_cat of the pbuf to one of the chains: the length field of the other is wrong. */
  lemma {:induction false} SharedCatFails()
    ensures var m := SharedTail();
            && Balanced(m, multiset{1, 2, 4}) && Grounded(m) && Lengths(m) && IsChain(m, 1, [1, 3]) && 4 in m
            && var n := AfterCat(m, [1, 3], 4, m[4].totLen); 2 in n && !LengthRight(n, 2)
  {
    var m := SharedTail();
    SharedChains();
    SharedBalanced(m);
    assert LengthRight(m, 1) && LengthRight(m, 2) && LengthRight(m, 3) && LengthRight(m, 4);
    var n := AfterCat(m, [1, 3], 4, 1);
    CatExactly(m, 1, [1, 3], 4, 1);
    assert n[3].totLen == 2 && n[2] == m[2] && n.Keys == m.Keys;
  }

  lemma {:induction false} SharedChains()
    ensures IsChain(SharedTail(), 1, [1, 3]) && Grounded(SharedTail())
  {
    var m := SharedTail();
    assert [1, 3][1..] == [3] && [3][1..] == [] && [2, 3][1..] == [3] && [4][1..] == [];
    assert IsChain(m, 3, [3]) && IsChain(m, 1, [1, 3]) && IsChain(m, 2, [2, 3]) && IsChain(m, 4, [4]);
    assert HasChain(m, 1) && HasChain(m, 2) && HasChain(m, 3) && HasChain(m, 4);
  }

  lemma {:induction false} SharedBalanced(m: Mem)
    requires m.Keys == {1, 2, 3, 4} && m[1].next == m[2].next == 3 && m[3].next == m[4].next == NULL
    requires m[1].ref == m[2].ref == m[4].ref == 1 && m[3].ref == 2
    ensures Balanced(m, multiset{1, 2, 4})
  {
    assert PredSet(m, 3) == {1, 2};
    assert PredSet(m, 1) == {} && PredSet(m, 2) == {} && PredSet(m, 4) == {};
    forall a | a in m ensures Counted(m, multiset{1, 2, 4}, a) {
      assert a == 1 || a == 2 || a == 3 || a == 4;
    }
  }

  lemma {:induction false} RefLengths(m: Mem, p: Addr)
    requires p in m && m[p].ref < 0xFF && NULL !in m
    ensures Lengths(MoreRef(m, p)) <==> Lengths(m)
  {
    var n := MoreRef(m, p);
    forall a | a in m ensures LengthRight(n, a) <==> LengthRight(m, a) {
    }
    if Lengths(n) {
      forall a | a in m ensures LengthRight(m, a) { assert LengthRight(n, a); }
    }
  }

  lemma {:induction false} AllocLengths(m: Mem, n: Mem, holders: multiset<Addr>, p: Addr, c: seq<Addr>, length: nat)
    requires Lengths(m) && Balanced(m, holders) && c != [] && Building(m, n, p, c[|c| - 1], c, length, 0) && NULL !in n
    ensures Lengths(n)
  {
    TotAheadIsExact(n, c);
    forall a | a in n ensures LengthRight(n, a) {
      if a in m {
        assert Counted(m, holders, a) && LengthRight(m, a);
      } else {
        var i :| 0 <= i < |c| && c[i] == a;
        ChainSuffix(n, p, c, i);
        ExactSuffix(n, c, i);
        ExactIffFits(n, c[i..]);
        LengthAt(n, a, c[i..]);
      }
    }
  }

  /** pbuf_dechain: the rest is empty modulo 2^16, or no pbuf leads to the first one. */
  lemma {:induction false} DechainLengths(m: Mem, holders: multiset<Addr>, p: Addr, c: seq<Addr>)
    requires Lengths(m) && Balanced(m, holders) && IsChain(m, p, c) && c != []
    ensures |c| > 1 ==> c[1] in m
    ensures Lengths(AfterFree(AfterCut(m, p, c), c[1..])) <==> |c| == 1 || m[c[1]].totLen == 0 || Unshared(m, [p])
  {
    var cut, rest := AfterCut(m, p, c), c[1..];
    if |c| > 1 {
      var q := c[1];
      CutShifted(m, p, c);
      assert Balanced(AfterFree(cut, rest), holders) by { DechainBalanced(m, holders, p, c); }
      forall b | b in m && b !in [p] && m[b].next in [p] ensures b in AfterFree(cut, rest) {
        CutSurvives(m, holders, p, c, b);
      }
      ShiftedFreed(m, cut, [p], m[q].totLen, rest, holders);
    } else {
      CutChain(m, p, c);
      assert rest == [];
    }
  }

  lemma {:induction false} CutShifted(m: Mem, p: Addr, c: seq<Addr>)
    requires Lengths(m) && NULL !in m && IsChain(m, p, c) && |c| > 1
    ensures c[1] in m && Shifted(m, AfterCut(m, p, c), [p], m[c[1]].totLen)
  {
    CutChain(m, p, c);
    assert LengthRight(m, p);
    Back(m[p].totLen, m[p].Len(), m[c[1]].totLen);
  }

  lemma {:induction false} CutSurvives(m: Mem, holders: multiset<Addr>, p: Addr, c: seq<Addr>, b: Addr)
    requires Balanced(m, holders) && IsChain(m, p, c) && |c| > 1 && b in m && b != p && m[b].next == p
    ensures b in AfterFree(AfterCut(m, p, c), c[1..])
  {
    ChainInMem(m, p, c);
    forall a | a in c ensures m[a].ref > 0 { assert Counted(m, holders, a); }
    CutChain(m, p, c);
    assert c[..1] == [p];
    NotBehind(m, p, c, 0, b);
    FreeOffChain(AfterCut(m, p, c), c[1], c[1..], b);
  }

  lemma {:induction false} Back(tot: u16, own: u16, next: u16)
    requires tot == Up(own, next)
    ensures (tot - own) % U16 == next && Down(tot, next) == own
  {
    DownIs(tot, own);
  }

  /** A pbuf that leads to the first k + 1 pbufs of a chain does not lie behind them. */
  lemma {:induction false} NotBehind(m: Mem, p: Addr, c: seq<Addr>, k: nat, b: Addr)
    requires IsChain(m, p, c) && k < |c| && b in m && m[b].next in c[..k + 1]
    ensures b !in c[k + 1..]
  {
    if b in c[k + 1..] {
      var j :| 0 <= j < |c[k + 1..]| && c[k + 1..][j] == b;
      var i :| 0 <= i < k + 1 && c[i] == m[b].next;
      NotBack(m, p, c, i, k + 1 + j);
      assert false;
    }
  }

  lemma {:induction false} NotBack(m: Mem, p: Addr, c: seq<Addr>, i: nat, j: nat)
    requires IsChain(m, p, c) && i <= j < |c|
    ensures c[j] in m && m[c[j]].next != c[i]
  {
    ChainInMem(m, p, c);
    ChainDistinct(m, p, c);
    ChainLinks(m, p, c, j);
    assert c[i] in c;
  }

  /** pbuf_free_header: a pbuf that is given up goes away or has nothing behind it, modulo 2^16; and no pbuf
    * leads to the one that is shortened. */
  ghost predicate HeaderKeepsLengths(m: Mem, c: seq<Addr>, size: nat)
    decreases |c|
  {
    if size == 0 || c == [] || c[0] !in m || m[c[0]].ref == 0 then true
    else if size >= m[c[0]].Len() then
      (m[c[0]].ref == 1 || TotOf(m, m[c[0]].next) == 0)
      && HeaderKeepsLengths(WithoutFirst(m, c[0]), c[1..], size - m[c[0]].Len())
    else forall b | b in m :: m[b].next != c[0]
  }

  lemma {:induction false} HeaderLengths(m: Mem, others: multiset<Addr>, q: Addr, c: seq<Addr>, size: nat)
    requires Lengths(m) && Balanced(m, others + Token(q)) && IsChain(m, q, c)
    ensures Lengths(HeaderRun(m, c, size).0) <==> HeaderKeepsLengths(m, c, size)
    decreases |c|
  {
    ChainInMem(m, q, c);
    if q != NULL && size > 0 {
      assert Counted(m, others + Token(q), q);
      if size >= m[q].Len() {
        var n, left := WithoutFirst(m, q), size - m[q].Len();
        FirstBalanced(m, others, q, c);
        FirstLengths(m, others, q);
        if m[q].ref == 1 || TotOf(m, m[q].next) == 0 {
          HeaderLengths(n, others, m[q].next, c[1..], left);
        } else {
          ChainDistinct(m, q, c);
          HeaderOff(n, c[1..], left, q);
          assert !LengthRight(HeaderRun(n, c[1..], left).0, q);
        }
      } else {
        NotBack(m, q, c, 0, 0);
        ShortenedLengths(m, q, size);
      }
    }
  }

  lemma {:induction false} FirstLengths(m: Mem, others: multiset<Addr>, q: Addr)
    requires Lengths(m) && Balanced(m, others + Token(q)) && q != NULL && q in m && m[q].ref > 0
    ensures m[q].ref == 1 || TotOf(m, m[q].next) == 0 ==> Lengths(WithoutFirst(m, q))
    ensures !(m[q].ref == 1 || TotOf(m, m[q].next) == 0) ==>
              q in WithoutFirst(m, q) && WithoutFirst(m, q)[q].next == NULL
              && WithoutFirst(m, q)[q].totLen != WithoutFirst(m, q)[q].Len()
  {
    var n := WithoutFirst(m, q);
    assert LengthRight(m, q) && Counted(m, others + Token(q), q);
    Back(m[q].totLen, m[q].Len(), TotOf(m, m[q].next));
    if m[q].ref == 1 || TotOf(m, m[q].next) == 0 {
      forall a | a in n ensures LengthRight(n, a) {
        assert LengthRight(m, a) && Counted(m, others + Token(q), a);
        if m[q].ref == 1 {
          OneHolder(m, others, q, a);
        }
      }
    }
  }

  /** A pbuf with one reference that somebody holds has no predecessor. */
  lemma {:induction false} OneHolder(m: Mem, others: multiset<Addr>, q: Addr, a: Addr)
    requires Balanced(m, others + Token(q)) && q != NULL && q in m && m[q].ref == 1 && a in m
    ensures m[a].next != q
  {
    assert Counted(m, others + Token(q), q);
    assert PredSet(m, q) == {};
    assert a !in PredSet(m, q);
  }

  /** pbuf_free_header does not touch pbufs off the chain. */
  lemma {:induction false} HeaderOff(m: Mem, c: seq<Addr>, size: nat, a: Addr)
    requires a in m && a !in c && m[a].next == NULL && NULL !in m && m[a].totLen != m[a].Len()
    ensures a in HeaderRun(m, c, size).0 && HeaderRun(m, c, size).0[a] == m[a]
    ensures NULL !in HeaderRun(m, c, size).0 && !LengthRight(HeaderRun(m, c, size).0, a)
    decreases |c|
  {
    if size > 0 && c != [] && c[0] in m && m[c[0]].ref > 0 && size >= m[c[0]].Len() {
      HeaderOff(WithoutFirst(m, c[0]), c[1..], size - m[c[0]].Len(), a);
    }
  }

  lemma {:induction false} ShortenedLengths(m: Mem, q: Addr, size: nat)
    requires Lengths(m) && NULL !in m && q in m && 0 < size < m[q].Len() && m[q].next != q
    ensures Lengths(m[q := Headless(m[q], size)]) <==> forall b | b in m :: m[b].next != q
  {
    var n := m[q := Headless(m[q], size)];
    assert LengthRight(m, q);
    Shorten(m[q].totLen, m[q].Len(), TotOf(m, m[q].next), size);
    assert LengthRight(n, q) && Shifted(m, n, [q], size);
    ShiftedLengths(m, n, [q], size);
  }

  lemma {:induction false} Shorten(tot: u16, own: u16, next: u16, size: nat)
    requires tot == Up(own, next) && size <= own
    ensures (tot - size) % U16 == Down(tot, size) == Up(own - size, next)
  {
    DownIs(tot, size);
  }

  // ---------- pbuf_realloc and pbuf_split_64k ----------

  /** pbuf_realloc: it has nothing to do, or no pbuf off the part that is kept leads to it. */
  lemma {:induction false} ReallocLengths(m: Mem, holders: multiset<Addr>, p: Addr, c: seq<Addr>, newLen: u16, k: nat)
    requires Lengths(m) && Balanced(m, holders) && IsChain(m, p, c) && p != NULL && ReallocAt(m, c, newLen, k)
    requires ExactTot(m, c)
    ensures Lengths(AfterRealloc(m, c, newLen, k)) <==> Unshared(m, c[..k + 1])
  {
    var drop, left := |Flat(m, c)| - newLen, newLen - |Flat(m, c[..k])|;
    var low := Lower(m, c[..k], drop);
    NotBefore(m, p, c, k);
    assert 0 < drop < U16 by { ExactIffFits(m, c); }
    assert Balanced(AfterRealloc(m, c, newLen, k), holders) by { ReallocBalanced(m, holders, p, c, newLen, k); }
    ReallocFreed(m, holders, p, c, k, low, left, drop, Ended(low, c[k], left));
  }

  lemma {:induction false} ReallocFreed(m: Mem, holders: multiset<Addr>, p: Addr, c: seq<Addr>, k: nat, low: Mem,
                                        left: u16, drop: nat, cut: Mem)
    requires Lengths(m) && Balanced(m, holders) && IsChain(m, p, c) && k < |c| && c[k] in m && left <= m[c[k]].Len()
    requires InMem(m, c) && 0 < drop < U16 && ExactTot(m, c)
    requires InMem(m, c[..k]) && left == |Flat(m, c)| - drop - |Flat(m, c[..k])|
    requires low == Lower(m, c[..k], drop) && low[c[k]] == m[c[k]] && cut == Ended(low, c[k], left)
    requires Balanced(AfterFree(cut, c[k + 1..]), holders)
    ensures Lengths(AfterFree(cut, c[k + 1..])) <==> Unshared(m, c[..k + 1])
  {
    assert Shifted(m, cut, c[..k + 1], drop) by { ReallocShifted(m, p, c, k, low, left, drop, cut); }
    var d, rest := c[..k + 1], c[k + 1..];
    assert forall b | b in m && b !in d && m[b].next in d :: b in AfterFree(cut, rest) by {
      forall b | b in m && b !in d && m[b].next in d ensures b in AfterFree(cut, rest) {
        ReallocSurvives(m, holders, p, c, k, low, left, b);
      }
    }
    ShiftedFreed(m, cut, d, drop, rest, holders);
  }

  lemma {:induction false} ReallocSurvives(m: Mem, holders: multiset<Addr>, p: Addr, c: seq<Addr>, k: nat, low: Mem,
                                           left: u16, b: Addr)
    requires Balanced(m, holders) && IsChain(m, p, c) && k < |c| && c[k] in m && left <= m[c[k]].Len()
    requires low.Keys == m.Keys && low[c[k]] == m[c[k]]
    requires forall a | a in m :: low[a].next == m[a].next && low[a].data == m[a].data && low[a].ref == m[a].ref
    requires b in m && m[b].next in c[..k + 1]
    ensures b in AfterFree(Ended(low, c[k], left), c[k + 1..])
  {
    NotBehind(m, p, c, k, b);
    EndChains(m, p, c, holders, low, c[k], k, left);
    FreeOffChain(Ended(low, c[k], left), m[c[k]].next, c[k + 1..], b);
  }

  lemma {:induction false} ReallocShifted(m: Mem, p: Addr, c: seq<Addr>, k: nat, low: Mem, left: u16, drop: nat,
                                          cut: Mem)
    requires Lengths(m) && NULL !in m && IsChain(m, p, c) && InMem(m, c) && ExactTot(m, c) && k < |c| && c[k] in m
    requires InMem(m, c[..k]) && left == |Flat(m, c)| - drop - |Flat(m, c[..k])| && left <= m[c[k]].Len()
    requires low == Lower(m, c[..k], drop) && low[c[k]] == m[c[k]] && cut == Ended(low, c[k], left)
    ensures Shifted(m, cut, c[..k + 1], drop)
  {
    var d := c[..k + 1];
    assert d == c[..k] + [c[k]] && c[k] in c;
    assert left == Down(m[c[k]].totLen, drop) by {
      FlatSplit(m, c, k);
      ExactSuffix(m, c, k);
    }
    forall i {:trigger Inner(m, cut, d, i)} | 0 <= i < k ensures Inner(m, cut, d, i) {
      ChainLinks(m, p, c, i);
      NotLastOf(m, p, c, i, k);
      assert c[i] in c[..k] && d[i] == c[i] && d[i + 1] == c[i + 1];
    }
    forall a | a in d ensures cut[a].totLen == Down(m[a].totLen, drop) {
      assert a in c[..k] || a == c[k];
    }
    assert d[k] == c[k] && LengthRight(cut, c[k]);
  }

  /** pbuf_split_64k: the rest is empty modulo 2^16, or no pbuf off the front leads to it. */
  lemma {:induction false} SplitLengths(m: Mem, p: Addr, c: seq<Addr>, k: nat)
    requires Lengths(m) && NULL !in m && IsChain(m, p, c) && SplitsAt(m, c, k)
    ensures Lengths(AfterSplit(m, c, k)) <==> m[c[k]].totLen == 0 || Unshared(m, c[..k])
  {
    var n := AfterSplit(m, c, k);
    assert Shifted(m, n, c[..k], m[c[k]].totLen) by { SplitShifted(m, p, c, k); }
    assert Lengths(n) <==> m[c[k]].totLen == 0 || Unshared(m, c[..k]) by {
      ShiftedLengths(m, n, c[..k], m[c[k]].totLen);
    }
  }

  lemma {:induction false} SplitShifted(m: Mem, p: Addr, c: seq<Addr>, k: nat)
    requires Lengths(m) && NULL !in m && IsChain(m, p, c) && SplitsAt(m, c, k)
    ensures Shifted(m, AfterSplit(m, c, k), c[..k], m[c[k]].totLen)
  {
    var n, d := AfterSplit(m, c, k), c[..k];
    var low := Lower(m[c[k - 1] := m[c[k - 1]].(next := NULL)], d, m[c[k]].totLen);
    assert c[k] in c && c[k - 1] in c;
    LowFacts(m, p, c, k, low, n);
    SplitDisjoint(m, p, c, k);
    forall i {:trigger Inner(m, n, d, i)} | 0 <= i < k - 1 ensures Inner(m, n, d, i) {
      ChainLinks(m, p, c, i);
      NotLastOf(m, p, c, i, k - 1);
      assert c[i] in d && InFront(m, n, c[k - 1], m[c[k]].totLen, c[i]);
    }
    SplitLast(m, n, p, c, k);
    assert forall a | a in m && a !in d :: SameLength(m, n, a) by {
      forall a | a in m && a !in d ensures SameLength(m, n, a) {
        assert a in c ==> a in c[k..] by { assert c == d + c[k..]; }
      }
    }
  }

  lemma {:induction false} SplitLast(m: Mem, n: Mem, p: Addr, c: seq<Addr>, k: nat)
    requires Lengths(m) && NULL !in m && IsChain(m, p, c) && 0 < k < |c| && c[k] in m && n.Keys == m.Keys && InMem(m, c)
    requires forall a | a in c[..k] :: InFront(m, n, c[k - 1], m[c[k]].totLen, a)
    ensures c[k - 1] in n && LengthRight(n, c[k - 1])
    ensures forall a | a in c[..k] :: n[a].totLen == Down(m[a].totLen, m[c[k]].totLen)
  {
    var last, d := c[k - 1], c[..k];
    assert d[k - 1] == last && last in d;
    assert InFront(m, n, last, m[c[k]].totLen, last);
    ChainLinks(m, p, c, k - 1);
    assert LengthRight(m, last);
    Back(m[last].totLen, m[last].Len(), m[c[k]].totLen);
    forall a | a in d ensures n[a].totLen == Down(m[a].totLen, m[c[k]].totLen) {
      assert InFront(m, n, last, m[c[k]].totLen, a);
      DownIs(m[a].totLen, m[c[k]].totLen);
    }
  }

  lemma {:induction false} NotLastOf(m: Mem, p: Addr, c: seq<Addr>, i: nat, j: nat)
    requires IsChain(m, p, c) && i < j < |c|
    ensures c[i] != c[j]
  {
    ChainDistinct(m, p, c);
  }

  // ---------- runs ----------

  /** When a call keeps all length fields right: where it changes length fields along a chain, no pbuf from
    * elsewhere may lead to that part of the chain. */
  ghost predicate Keeps(s: State, e: Call) {
    match e
    case Alloc(_, _, _) => true
    case Ref(_) => true
    case Free(_, _) => true
    case Cat(_, q, c, _) => TotOf(s.m, q) == 0 || Unshared(s.m, c)
    case Chain(_, q, c, _) => TotOf(s.m, q) == 0 || Unshared(s.m, c)
    case Dechain(p, c) => |c| == 1 || (|c| > 1 && TotOf(s.m, c[1]) == 0) || Unshared(s.m, [p])
    case FreeHeader(_, c, size) => HeaderKeepsLengths(s.m, c, size)
    case Realloc(_, c, newLen, k) => InMem(s.m, c) && (newLen >= |Flat(s.m, c)| || Unshared(s.m, c[..Min(k + 1, |c|)]))
    case Split(_, c, k) =>
      InMem(s.m, c) && (|Flat(s.m, c)| < U16 || (k < |c| && TotOf(s.m, c[k]) == 0) || Unshared(s.m, c[..Min(k, |c|)]))
  }

  /** Exactly then. */
  lemma {:induction false} StepLengths(s: State, e: Call, t: State)
    requires Ok(s) && Step(s, e, t) && Lengths(s.m)
    ensures Lengths(t.m) <==> Keeps(s, e)
  {
    StepKeeps(s, e, t);
    NextIn(s.m, s.holders);
    NextIn(t.m, t.holders);
    match e
    case Alloc(p, c, length) => AllocLengths(s.m, t.m, s.holders, p, c, length);
    case Ref(p) => RefLengths(s.m, p);
    case Free(p, c) => FreedLengths(s.m, t.holders, c);
    case Cat(h, q, c, d) => CatStep(s.m, h, q, c, d);
    case Chain(h, q, c, d) => ChainStep(s, h, q, c, d, t.m);
    case Dechain(p, c) => DechainLengths(s.m, s.holders, p, c);
    case FreeHeader(q, c, size) => HeaderStepLengths(s, q, c, size);
    case Realloc(p, c, newLen, k) => ReallocStepLengths(s, p, c, newLen, k, t);
    case Split(p, c, k) => SplitStepLengths(s, p, c, k, t);
  }

  lemma {:induction false} HeaderStepLengths(s: State, q: Addr, c: seq<Addr>, size: u16)
    requires Ok(s) && Lengths(s.m) && q in s.holders && IsChain(s.m, q, c) && NULL !in s.m
    ensures Lengths(WithoutHeader(s, q, c, size).m) <==> Keeps(s, FreeHeader(q, c, size))
  {
    assert s.holders - multiset{q} + Token(q) == s.holders;
    HeaderLengths(s.m, s.holders - multiset{q}, q, c, size);
  }

  lemma {:induction false} ReallocStepLengths(s: State, p: Addr, c: seq<Addr>, newLen: u16, k: nat, t: State)
    requires Ok(s) && Lengths(s.m) && p in s.m && NULL !in s.m && Reallocs(s.m, p, c, newLen, k, t.m)
    ensures Lengths(t.m) <==> Keeps(s, Realloc(p, c, newLen, k))
  {
    if newLen < |Flat(s.m, c)| { ReallocLengths(s.m, s.holders, p, c, newLen, k); }
  }

  lemma {:induction false} SplitStepLengths(s: State, p: Addr, c: seq<Addr>, k: nat, t: State)
    requires Ok(s) && Lengths(s.m) && p in s.m && NULL !in s.m && Splits(s, p, c, k, t)
    ensures Lengths(t.m) <==> Keeps(s, Split(p, c, k))
  {
    if |Flat(s.m, c)| >= U16 {
      assert c[k] in c;
      SplitLengths(s.m, p, c, k);
    }
  }

  lemma {:induction false} FreedLengths(m: Mem, holders: multiset<Addr>, c: seq<Addr>)
    requires NULL !in m && Balanced(AfterFree(m, c), holders) && Lengths(m)
    ensures Lengths(AfterFree(m, c))
  {
    FreeLengths(m, holders, c);
    forall a | a in AfterFree(m, c) ensures LengthRight(AfterFree(m, c), a) { assert LengthRight(m, a); }
  }

  lemma {:induction false} CatStep(m: Mem, h: Addr, q: Addr, c: seq<Addr>, d: seq<Addr>)
    requires Lengths(m) && NULL !in m && q in m && Two(m, h, q, c, d)
    ensures Lengths(AfterCat(m, c, q, m[q].totLen)) <==> TotOf(m, q) == 0 || Unshared(m, c)
  {
    assert q in Elems(d) && q !in Elems(c);
    CatLengths(m, h, c, q);
  }

  lemma {:induction false} ChainStep(s: State, h: Addr, q: Addr, c: seq<Addr>, d: seq<Addr>, n: Mem)
    requires Ok(s) && Lengths(s.m) && NULL !in s.m && q in s.m && q in s.holders && Two(s.m, h, q, c, d)
    requires Chained(s.m, c, q, n)
    ensures Lengths(n) <==> TotOf(s.m, q) == 0 || Unshared(s.m, c)
  {
    CatKeeps(s, h, q, c, d);
    CatStep(s.m, h, q, c, d);
    RefLengths(AfterCat(s.m, c, q, s.m[q].totLen), q);
  }

  /** Over every run: the length fields of all pbufs are right modulo 2^16 in all states if and only if every
    * call has met its condition. */
  lemma {:induction false} LengthsInRun(states: seq<State>, calls: seq<Call>)
    requires Run(states, calls)
    ensures (forall k {:trigger states[k]} | 0 <= k <= |calls| :: Lengths(states[k].m))
            <==> forall k {:trigger calls[k]} | 0 <= k < |calls| :: Keeps(states[k], calls[k])
  {
    forall k {:trigger calls[k]} | 0 <= k < |calls| && Lengths(states[k].m)
        ensures Lengths(states[k + 1].m) <==> Keeps(states[k], calls[k]) {
      RunOk(states, calls, k);
      StepLengths(states[k], calls[k], states[k + 1]);
    }
    if forall k {:trigger calls[k]} | 0 <= k < |calls| :: Keeps(states[k], calls[k]) {
      for k := 0 to |calls|
        invariant forall j {:trigger states[j]} | 0 <= j <= k :: Lengths(states[j].m)
      {
        assert Lengths(states[k].m) && Keeps(states[k], calls[k]);
      }
    }
  }
}
