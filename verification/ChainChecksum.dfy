/** The checksums of core/inet_chksum.c over pbuf chains and with pseudo headers, and the checksum
  * kept while a pbuf is filled (pbuf_fill_chksum of core/pbuf.c). */
module ChainChecksum {
  import opened Words
  import opened Checksum
  import opened PbufMemory
  import opened PbufCopy

  /** The bitwise complement of a 16-bit word. */
  function Complement(x: u16): u16 {
    0xFFFF - x
  }

  /** inet_chksum. */
  method InetChksum(data: seq<byte>, addr: nat) returns (r: u16)
    requires |data| < U16
    ensures r == Complement(RfcSum(data))
  {
    var sum := Chksum2(data, addr);
    r := Complement(sum);
  }

  // ---------- the checksum verifies ----------

  /** A 16-bit word stored at an even offset over zeros adds itself to the weighted sum. */
  lemma {:induction false} WeightStored(data: seq<byte>, k: nat, v: u16)
    requires k % 2 == 0 && k + 2 <= |data| && data[k] == 0 == data[k + 1]
    ensures Weight(data[k := v % 0x100][k + 1 := v / 0x100], false) == Weight(data, false) + v
  {
    var stored := data[k := v % 0x100][k + 1 := v / 0x100];
    var before, after := data[..k], data[k..];
    assert data == before + after && stored == before + stored[k..];
    WeightConcat(before, after, false);
    WeightConcat(before, stored[k..], false);
    WeightStep(data, k, false);
    WeightStep(stored, k, false);
    assert stored[k + 2..] == data[k + 2..];
  }

  lemma {:induction false} ComplementSums(n: nat, v: u16)
    ensures Canon(n + v) == 0xFFFF <==> v == Complement(Canon(n)) || (v == 0xFFFF && Canon(n) == 0xFFFF)
  {
    if n > 0 {
      var q, r := (n - 1) / 0xFFFF, (n - 1) % 0xFFFF;
      assert n == r + 1 + 0xFFFF * q;
      CanonShift(r + 1 + v, q);
    }
  }

  /** A message whose checksum field was zero verifies with the value v stored there if and only if
    * v is the computed checksum (or the other representation of zero). */
  lemma {:induction false} StoredChecksumVerifies(data: seq<byte>, k: nat, v: u16)
    requires k % 2 == 0 && k + 2 <= |data| && data[k] == 0 == data[k + 1]
    ensures var c := Complement(RfcSum(data));
            Complement(RfcSum(data[k := v % 0x100][k + 1 := v / 0x100])) == 0 <==> v == c || (v == 0xFFFF && c == 0)
  {
    var stored := data[k := v % 0x100][k + 1 := v / 0x100];
    assert RfcSum(data) == Canon(Weight(data, false)) by { RfcSumIsCanon(data); }
    assert RfcSum(stored) == Canon(Weight(data, false) + v) by {
      RfcSumIsCanon(stored);
      WeightStored(data, k, v);
    }
    ComplementSums(Weight(data, false), v);
  }

  // ---------- chains ----------

  lemma {:induction false} SwapInvolutive(x: u16)
    ensures SwapBytes(SwapBytes(x)) == x
  {
    var h: int, l: int := x / 0x100, x % 0x100;
    assert x == 0x100 * h + l && h < 0x100;
    assert SwapBytes(x) == 0x100 * l + h;
  }

  lemma {:induction false} SwapIsCanon(a: u16)
    ensures SwapBytes(a) == Canon(0x100 * a)
  {
    assert Canon(a) == a;
    SwapCanon(a);
  }

  lemma {:induction false} SwapOnesAdd(a: u16, b: u16)
    ensures SwapBytes(OnesAdd(a, b)) == OnesAdd(SwapBytes(a), SwapBytes(b))
  {
    var s := OnesAdd(a, b);
    assert s == Canon(a + b) by { FoldOnce(a, b); }
    assert SwapBytes(s) == Canon(0x100 * (a + b)) by { SwapCanon(a + b); }
    assert OnesAdd(SwapBytes(a), SwapBytes(b)) == Canon(0x100 * a + 0x100 * b) by {
      SwapIsCanon(a);
      SwapIsCanon(b);
      OnesAddCanon(0x100 * a, 0x100 * b);
    }
  }

  lemma {:induction false} OnesAddAssoc(a: u16, b: u16, c: u16)
    ensures OnesAdd(OnesAdd(a, b), c) == OnesAdd(a, OnesAdd(b, c))
  {
  }

  /** The accumulator of the chain loops, with its bytes put back in order. */
  function Straight(acc: u16, swapped: bool): u16 {
    if swapped then SwapBytes(acc) else acc
  }

  /** The accumulator, straightened, is the sum of acc0 and the bytes done; it is swapped behind an
    * odd number of bytes. */
  ghost predicate Summed(acc0: u16, done: seq<byte>, acc: u16, swapped: bool) {
    Straight(acc, swapped) == OnesAdd(acc0, RfcSum(done)) && swapped == (|done| % 2 == 1)
  }

  /** One segment added behind the bytes done. Its sum goes in unswapped; whether the accumulator is
    * swapped afterwards matters only for what comes behind. */
  lemma {:induction false} SegmentStep(acc0: u16, done: seq<byte>, d: seq<byte>, acc: u16, swapped: bool)
    requires Summed(acc0, done, acc, swapped)
    ensures var sum := OnesAdd(acc, RfcSum(d));
            && Straight(sum, swapped) == OnesAdd(acc0, RfcSum(done + d))
            && Straight(SwapBytes(sum), !swapped) == OnesAdd(acc0, RfcSum(done + d))
            && (if |d| % 2 == 1 then Summed(acc0, done + d, SwapBytes(sum), !swapped)
               else Summed(acc0, done + d, sum, swapped))
  {
    assert RfcSum(done + d) == OnesAdd(RfcSum(done), Straight(RfcSum(d), swapped)) by { RfcSumConcat(done, d); }
    assert (|done + d| % 2 == 1) == (swapped != (|d| % 2 == 1)) by { OddSum(|done|, |d|); }
    SegmentArith(acc0, RfcSum(done), RfcSum(d), acc, swapped);
  }

  lemma {:induction false} OddSum(a: nat, b: nat)
    ensures ((a + b) % 2 == 1) == ((a % 2 == 1) != (b % 2 == 1))
  {
  }

  lemma {:induction false} SegmentArith(acc0: u16, done: u16, d: u16, acc: u16, swapped: bool)
    requires Straight(acc, swapped) == OnesAdd(acc0, done)
    ensures Straight(OnesAdd(acc, d), swapped) == OnesAdd(acc0, OnesAdd(done, Straight(d, swapped)))
    ensures Straight(SwapBytes(OnesAdd(acc, d)), !swapped) == Straight(OnesAdd(acc, d), swapped)
  {
    assert Straight(OnesAdd(acc, d), swapped) == OnesAdd(Straight(acc, swapped), Straight(d, swapped)) by {
      SwapOnesAdd(acc, d);
    }
    OnesAddAssoc(acc0, done, Straight(d, swapped));
    SwapInvolutive(OnesAdd(acc, d));
  }

  ghost predicate ChainTodo(m: Mem, h: Addr, c: seq<Addr>, acc0: u16, q: Addr, i: nat, acc: u16, swapped: bool) {
    At(m, h, c, q, i) && InMem(m, c[..i]) && Summed(acc0, Flat(m, c[..i]), acc, swapped)
  }

  lemma {:induction false} ChainStart(m: Mem, h: Addr, c: seq<Addr>, acc0: u16)
    requires IsChain(m, h, c)
    ensures ChainTodo(m, h, c, acc0, h, 0, acc0, false)
  {
    AtStart(m, h, c);
    assert c[..0] == [];
  }

  lemma {:induction false} ChainStep(m: Mem, h: Addr, c: seq<Addr>, acc0: u16, q: Addr, i: nat, acc: u16, swapped: bool)
    requires ChainTodo(m, h, c, acc0, q, i, acc, swapped) && q != NULL
    ensures i < |c|
    ensures var a := OnesAdd(acc, RfcSum(m[q].data));
            if m[q].Len() % 2 != 0 then ChainTodo(m, h, c, acc0, m[q].next, i + 1, SwapBytes(a), !swapped)
            else ChainTodo(m, h, c, acc0, m[q].next, i + 1, a, swapped)
  {
    assert i < |c| && At(m, h, c, m[q].next, i + 1) by { AtStep(m, h, c, q, i); }
    var done, d := Flat(m, c[..i]), m[q].data;
    assert InMem(m, c[..i + 1]) && Flat(m, c[..i + 1]) == done + d by { FlatSplit(m, c, i); }
    SegmentStep(acc0, done, d, acc, swapped);
  }

  lemma {:induction false} ChainDone(m: Mem, h: Addr, c: seq<Addr>, acc0: u16, q: Addr, i: nat, acc: u16, swapped: bool)
    requires ChainTodo(m, h, c, acc0, q, i, acc, swapped) && q == NULL
    ensures Straight(acc, swapped) == OnesAdd(acc0, RfcSum(Flat(m, c)))
  {
    assert i == |c| && c[..i] == c;
  }

  /** The body of the chain loops: adds the sum of the bytes d, folds, and swaps if told to. */
  method AddSegment(acc0: u16, d: seq<byte>, addr: nat, swap: bool) returns (acc: u32)
    requires |d| < U16
    ensures acc == if swap then SwapBytes(OnesAdd(acc0, RfcSum(d))) else OnesAdd(acc0, RfcSum(d))
  {
    var sum := Chksum2(d, addr);
    FoldOnce(acc0, sum);
    acc := acc0 + sum;
    acc := Fold(acc);
    if swap {
      acc := SwapBytes(acc);
    }
  }

  /** The loop shared by inet_cksum_pseudo_base and inet_chksum_pbuf: sums the segments of a chain,
    * swapping the accumulator behind odd ones. */
  method ChainSum(heap: PbufHeap, p: Addr, acc0: u16, ghost c: seq<Addr>) returns (acc: u32)
    requires IsChain(heap.mem, p, c)
    ensures InMem(heap.mem, c) && acc == OnesAdd(acc0, RfcSum(Flat(heap.mem, c)))
  {
    acc := acc0;
    var q, swapped := p, false;
    ghost var i := 0;
    ChainStart(heap.mem, p, c, acc0);
    while q != NULL
      invariant acc < U16 && ChainTodo(heap.mem, p, c, acc0, q, i, acc, swapped)
      decreases |c| - i
    {
      ChainStep(heap.mem, p, c, acc0, q, i, acc, swapped);
      var odd := heap.mem[q].Len() % 2 != 0;
      acc := AddSegment(acc, heap.mem[q].data, heap.mem[q].payload, odd);
      if odd {
        swapped := !swapped;
      }
      q := heap.mem[q].next;
      i := i + 1;
    }
    ChainDone(heap.mem, p, c, acc0, q, i, acc, swapped);
    if swapped {
      acc := SwapBytes(acc);
    }
  }

  /** inet_chksum_pbuf: the checksum of the flattened bytes, for every segmentation. */
  method InetChksumPbuf(heap: PbufHeap, p: Addr, ghost c: seq<Addr>) returns (r: u16)
    requires IsChain(heap.mem, p, c)
    ensures InMem(heap.mem, c) && r == Complement(RfcSum(Flat(heap.mem, c)))
  {
    var acc := ChainSum(heap, p, 0, c);
    r := Complement(acc % U16);
  }

  // ---------- pseudo headers ----------

  /** The IPv4 pseudo header of RFC 793, section 3.1. */
  function PseudoHeader4(src: seq<byte>, dest: seq<byte>, proto: byte, len: u16): seq<byte> {
    src + dest + [0, proto, len / 0x100, len % 0x100]
  }

  /** The IPv6 pseudo header of RFC 8200, section 8.1, for a 16-bit length. */
  function PseudoHeader6(src: seq<byte>, dest: seq<byte>, proto: byte, len: u16): seq<byte> {
    src + dest + [0, 0, len / 0x100, len % 0x100] + [0, 0, 0, proto]
  }

  /** The two halves of a network-order 32-bit word, as the address loops add them. */
  function Halves(a: seq<byte>, i: nat): nat
    requires i + 4 <= |a|
  {
    Load32(a, i) % U16 + Load32(a, i) / U16 % U16
  }

  lemma {:induction false} DivMod16(lo: nat, hi: nat)
    requires lo < U16 && hi < U16
    ensures (lo + 0x1_0000 * hi) % U16 == lo && (lo + 0x1_0000 * hi) / U16 == hi
  {
  }

  lemma {:induction false} HalvesWeight(a: seq<byte>, i: nat)
    requires i + 4 <= |a|
    ensures Weight(a[i..], false) == Halves(a, i) + Weight(a[i + 4..], false)
    ensures Halves(a, i) <= 0x1_FFFE
  {
    var lo: int, hi: int := Load16(a, i), Load16(a, i + 2);
    assert Halves(a, i) == lo + hi by { DivMod16(lo, hi); }
    assert Weight(a[i..], false) == lo + Weight(a[i + 2..], false) by { WeightStep(a, i, false); }
    assert Weight(a[i + 2..], false) == hi + Weight(a[i + 4..], false) by { WeightStep(a, i + 2, false); }
  }

  lemma {:induction false} WeightEmpty(a: seq<byte>, i: nat)
    requires i == |a|
    ensures Weight(a[i..], false) == 0
  {
  }

  lemma {:induction false} WeightFour(a: seq<byte>)
    requires |a| == 4
    ensures Weight(a, false) == a[0] as int + 0x100 * a[1] as int + a[2] as int + 0x100 * a[3] as int
  {
    assert a[0..] == a && a[4..] == [];
    WeightStep(a, 0, false);
    WeightStep(a, 2, false);
  }

  lemma {:induction false} ProtoWeight(proto: byte, len: u16)
    ensures Weight([0, proto, len / 0x100, len % 0x100], false) == SwapBytes(proto) + SwapBytes(len)
    ensures Weight([0, 0, len / 0x100, len % 0x100] + [0, 0, 0, proto], false) == SwapBytes(proto) + SwapBytes(len)
  {
    var lenBytes: seq<byte>, protoBytes: seq<byte> := [0, 0, len / 0x100, len % 0x100], [0, 0, 0, proto];
    WeightFour([0, proto, len / 0x100, len % 0x100]);
    WeightFour(lenBytes);
    WeightFour(protoBytes);
    WeightConcat(lenBytes, protoBytes, false);
  }

  /** The end of both pseudo bases: adds protocol and length in network order, folds twice,
    * complements. */
  method FinishPseudo(acc0: u16, proto: u16, protoLen: u16) returns (r: u16)
    ensures r == Complement(Canon(acc0 + proto + protoLen))
  {
    var acc: u32 := acc0;
    acc := acc + proto;
    acc := acc + protoLen;
    FoldTwice(acc);
    acc := Fold(Fold(acc));
    assert acc == Canon(acc0 + proto + protoLen) && acc % U16 == acc;
    r := Complement(acc % U16);
  }

  /** inet_cksum_pseudo_base: acc0 is the folded sum of the addresses. */
  method PseudoBase(heap: PbufHeap, p: Addr, proto: byte, protoLen: u16, acc0: u16, ghost c: seq<Addr>) returns (r: u16)
    requires IsChain(heap.mem, p, c)
    ensures InMem(heap.mem, c)
    ensures r == Complement(Canon(OnesAdd(acc0, RfcSum(Flat(heap.mem, c))) + SwapBytes(proto) + SwapBytes(protoLen)))
  {
    var acc := ChainSum(heap, p, acc0, c);
    r := FinishPseudo(acc, SwapBytes(proto), SwapBytes(protoLen));
  }

  /** The sum of a pseudo header in front of the data, from the sums of its parts. */
  lemma {:induction false} PseudoSum(addrs: seq<byte>, tail: seq<byte>, data: seq<byte>, acc0: u16, w: nat)
    requires |addrs| % 2 == 0 && |tail| % 2 == 0 && acc0 == Canon(Weight(addrs, false)) && w == Weight(tail, false)
    ensures RfcSum(addrs + tail + data) == Canon(OnesAdd(acc0, RfcSum(data)) + w)
  {
    var wa, wd := Weight(addrs, false), Weight(data, false);
    assert RfcSum(addrs + tail + data) == Canon(wa + w + wd) by {
      WeightConcat(addrs, tail, false);
      WeightConcat(addrs + tail, data, false);
      RfcSumIsCanon(addrs + tail + data);
    }
    RfcSumIsCanon(data);
    PseudoParts(wa, w, wd);
  }

  lemma {:induction false} PseudoParts(wa: nat, w: nat, wd: nat)
    ensures Canon(wa + w + wd) == Canon(OnesAdd(Canon(wa), Canon(wd)) + w)
  {
    OnesAddCanon(wa, wd);
    CanonAdd(wa + wd, w);
    assert wa + w + wd == wa + wd + w;
  }

  /** The address sum of inet_chksum_pseudo. */
  method Addresses4(src: seq<byte>, dest: seq<byte>) returns (acc: u32)
    requires |src| == |dest| == 4
    ensures acc == Canon(Weight(src + dest, false))
  {
    HalvesWeight(src, 0);
    HalvesWeight(dest, 0);
    WeightEmpty(src, 4);
    WeightEmpty(dest, 4);
    assert src[0..] == src && dest[0..] == dest;
    WeightConcat(src, dest, false);
    var addr := Load32(src, 0);
    acc := addr % U16;
    acc := acc + addr / U16 % U16;
    addr := Load32(dest, 0);
    acc := acc + addr % U16;
    acc := acc + addr / U16 % U16;
    FoldTwice(acc);
    acc := Fold(acc);
    acc := Fold(acc);
  }

  /** The address sum of ip6_chksum_pseudo. */
  method Addresses6(src: seq<byte>, dest: seq<byte>) returns (acc: u32)
    requires |src| == |dest| == 16
    ensures acc == Canon(Weight(src + dest, false))
  {
    acc := 0;
    assert src[0..] == src && dest[0..] == dest;
    var part := 0;
    while part < 4
      invariant 0 <= part <= 4 && acc <= part * 0x3_FFFC
      invariant acc + Weight(src[4 * part..], false) + Weight(dest[4 * part..], false) ==
          Weight(src, false) + Weight(dest, false)
    {
      HalvesWeight(src, 4 * part);
      HalvesWeight(dest, 4 * part);
      var addr := Load32(src, 4 * part);
      acc := acc + addr % U16;
      acc := acc + addr / U16 % U16;
      addr := Load32(dest, 4 * part);
      acc := acc + addr % U16;
      acc := acc + addr / U16 % U16;
      part := part + 1;
    }
    WeightEmpty(src, 16);
    WeightEmpty(dest, 16);
    WeightConcat(src, dest, false);
    FoldTwice(acc);
    acc := Fold(acc);
    acc := Fold(acc);
  }

  /** inet_chksum_pseudo. */
  method InetChksumPseudo(heap: PbufHeap, p: Addr, proto: byte, protoLen: u16, src: seq<byte>, dest: seq<byte>,
                          ghost c: seq<Addr>)
    returns (r: u16)
    requires IsChain(heap.mem, p, c) && |src| == |dest| == 4
    ensures InMem(heap.mem, c)
    ensures r == Complement(RfcSum(PseudoHeader4(src, dest, proto, protoLen) + Flat(heap.mem, c)))
  {
    var acc := Addresses4(src, dest);
    r := PseudoBase(heap, p, proto, protoLen, acc, c);
    ProtoWeight(proto, protoLen);
    PseudoSum(src + dest, [0, proto, protoLen / 0x100, protoLen % 0x100], Flat(heap.mem, c), acc,
      SwapBytes(proto) + SwapBytes(protoLen));
  }

  /** ip6_chksum_pseudo. */
  method Ip6ChksumPseudo(heap: PbufHeap, p: Addr, proto: byte, protoLen: u16, src: seq<byte>, dest: seq<byte>,
                         ghost c: seq<Addr>)
    returns (r: u16)
    requires IsChain(heap.mem, p, c) && |src| == |dest| == 16
    ensures InMem(heap.mem, c)
    ensures r == Complement(RfcSum(PseudoHeader6(src, dest, proto, protoLen) + Flat(heap.mem, c)))
  {
    var acc := Addresses6(src, dest);
    r := PseudoBase(heap, p, proto, protoLen, acc, c);
    ProtoWeight(proto, protoLen);
    ghost var tail: seq<byte> := [0, 0, protoLen / 0x100, protoLen % 0x100] + [0, 0, 0, proto];
    PseudoSum(src + dest, tail, Flat(heap.mem, c), acc, SwapBytes(proto) + SwapBytes(protoLen));
    assert src + dest + tail == PseudoHeader6(src, dest, proto, protoLen);
  }

  // ---------- the partial variants ----------

  /** Whether the assertion inside the loop of inet_cksum_pseudo_partial_base, that fewer than 0x7FFF
    * bytes are left, holds each time it is reached. */
  ghost predicate PartialAssertHolds(m: Mem, p: Addr, chksumLen: u16)
    requires p != NULL ==> p in m
  {
    p == NULL || chksumLen == 0 || chksumLen - Min(m[p].Len(), chksumLen) < 0x7FFF
  }

  /** It does not hold on every input: a chain of one byte and 0x7FFF more, all of which are to be summed. */
  lemma {:induction false} PartialAssertFails() returns (m: Mem, p: Addr, c: seq<Addr>, chksumLen: u16)
    ensures p in m && IsChain(m, p, c) && InMem(m, c) && ExactTot(m, c) && |Flat(m, c)| == chksumLen
    ensures !PartialAssertHolds(m, p, chksumLen)
  {
    p, c, chksumLen := 1, [1, 2], 0x8000;
    var d: Payload := seq(0x7FFF, _ => 0);
    m := map[1 := Pbuf(2, 0, [0], 0x8000, 1, false), 2 := Pbuf(NULL, 0, d, 0x7FFF, 1, false)];
    assert c[1..] == [2] && [2][1..] == [];
    assert InMem(m, c) && InMem(m, [2]);
    assert Flat(m, [2]) == d + Flat(m, []);
    assert Flat(m, c) == m[1].data + Flat(m, [2]);
  }

  ghost predicate PartialTodo(m: Mem, h: Addr, c: seq<Addr>, acc0: u16, len: nat, q: Addr, i: nat, left: nat,
                              acc: u16, swapped: bool) {
    && At(m, h, c, q, i) && left <= len && len - left <= |Flat(m, c)|
    && Straight(acc, swapped) == OnesAdd(acc0, RfcSum(Flat(m, c)[..len - left]))
    && (left > 0 ==> len - left == Pos(m, c, i) && Summed(acc0, Flat(m, c)[..len - left], acc, swapped))
  }

  lemma {:induction false} PartialStart(m: Mem, h: Addr, c: seq<Addr>, acc0: u16, len: nat)
    requires IsChain(m, h, c)
    ensures PartialTodo(m, h, c, acc0, len, h, 0, len, acc0, false)
  {
    AtStart(m, h, c);
    PosStep(m, c, 0);
    assert Flat(m, c)[..0] == [];
  }

  lemma {:induction false} PartialStep(m: Mem, h: Addr, c: seq<Addr>, acc0: u16, len: nat, q: Addr, i: nat,
                                       left: nat, acc: u16, swapped: bool)
    requires PartialTodo(m, h, c, acc0, len, q, i, left, acc, swapped) && q != NULL && left > 0
    ensures i < |c|
    ensures var n := Min(m[q].Len(), left);
            var a := OnesAdd(acc, RfcSum(m[q].data[..n]));
            n <= left &&
            if m[q].Len() % 2 != 0 then
              PartialTodo(m, h, c, acc0, len, m[q].next, i + 1, left - n, SwapBytes(a), !swapped)
               else PartialTodo(m, h, c, acc0, len, m[q].next, i + 1, left - n, a, swapped)
  {
    var n, all, done := Min(m[q].Len(), left), Flat(m, c), len - left;
    assert At(m, h, c, m[q].next, i + 1) && Pos(m, c, i + 1) == Pos(m, c, i) + m[q].Len() <= |all| by {
      AtStep(m, h, c, q, i);
    }
    var d := m[q].data[..n];
    assert all[..done] + d == all[..done + n] by { PosStep(m, c, i); }
    SegmentStep(acc0, all[..done], d, acc, swapped);
  }

  lemma {:induction false} PartialDone(m: Mem, h: Addr, c: seq<Addr>, acc0: u16, len: nat, q: Addr, i: nat,
                                       left: nat, acc: u16, swapped: bool)
    requires PartialTodo(m, h, c, acc0, len, q, i, left, acc, swapped) && (q == NULL || left == 0)
    ensures Straight(acc, swapped) == OnesAdd(acc0, RfcSum(Slice(Flat(m, c), 0, len)))
  {
    PosStep(m, c, i);
    assert Min(len, |Flat(m, c)|) == len - left;
    SlicePrefix(Flat(m, c), len);
  }

  lemma {:induction false} SlicePrefix(all: seq<byte>, len: nat)
    ensures Slice(all, 0, len) == all[..Min(len, |all|)]
  {
    var n := Min(len, |all|);
    assert all[0..n] == all[..n];
  }

  /** The loop of inet_cksum_pseudo_partial_base. Toggling on the whole length of the last pbuf
    * instead of on the part summed makes no difference. */
  method PartialSum(heap: PbufHeap, p: Addr, chksumLen0: u16, acc0: u16, ghost c: seq<Addr>)
      returns (acc: u32, asserted: bool)
    requires IsChain(heap.mem, p, c)
    ensures InMem(heap.mem, c) && (p != NULL ==> p in heap.mem)
    ensures acc == OnesAdd(acc0, RfcSum(Slice(Flat(heap.mem, c), 0, chksumLen0)))
    ensures asserted <==> PartialAssertHolds(heap.mem, p, chksumLen0)
  {
    acc, asserted := acc0, true;
    var q, swapped, chksumLen: u16 := p, false, chksumLen0;
    ghost var i := 0;
    PartialStart(heap.mem, p, c, acc0, chksumLen0);
    while q != NULL && chksumLen > 0
      invariant acc < U16 && PartialTodo(heap.mem, p, c, acc0, chksumLen0, q, i, chksumLen, acc, swapped)
      invariant i == 0 ==> q == p && chksumLen == chksumLen0 && asserted
      invariant i > 0 ==> p != NULL && chksumLen0 > 0 && chksumLen <= chksumLen0 - Min(heap.mem[p].Len(), chksumLen0)
      invariant i > 0 ==> (asserted <==> PartialAssertHolds(heap.mem, p, chksumLen0))
      decreases |c| - i
    {
      PartialStep(heap.mem, p, c, acc0, chksumLen0, q, i, chksumLen, acc, swapped);
      var chklen := Min(heap.mem[q].Len(), chksumLen);
      var odd := heap.mem[q].Len() % 2 != 0;
      acc := AddSegment(acc, heap.mem[q].data[..chklen], heap.mem[q].payload, odd);
      chksumLen := chksumLen - chklen;
      asserted := asserted && chksumLen < 0x7FFF;
      if odd {
        swapped := !swapped;
      }
      q := heap.mem[q].next;
      i := i + 1;
    }
    PartialDone(heap.mem, p, c, acc0, chksumLen0, q, i, chksumLen, acc, swapped);
    if swapped {
      acc := SwapBytes(acc);
    }
  }

  /** inet_chksum_pseudo_partial: covers the first chksumLen bytes of the chain. */
  method InetChksumPseudoPartial(heap: PbufHeap, p: Addr, proto: byte, protoLen: u16, chksumLen: u16, src: seq<byte>,
                                 dest: seq<byte>, ghost c: seq<Addr>)
    returns (r: u16)
    requires IsChain(heap.mem, p, c) && |src| == |dest| == 4
    ensures InMem(heap.mem, c)
    ensures r == Complement(RfcSum(PseudoHeader4(src, dest, proto, protoLen) + Slice(Flat(heap.mem, c), 0, chksumLen)))
  {
    var acc0 := Addresses4(src, dest);
    var acc, _ := PartialSum(heap, p, chksumLen, acc0, c);
    ghost var data := Slice(Flat(heap.mem, c), 0, chksumLen);
    ProtoWeight(proto, protoLen);
    PseudoSum(src + dest, [0, proto, protoLen / 0x100, protoLen % 0x100], data, acc0,
      SwapBytes(proto) + SwapBytes(protoLen));
    r := FinishPseudo(acc, SwapBytes(proto), SwapBytes(protoLen));
  }

  // ---------- pbuf_fill_chksum ----------

  /** The checksum updated by a piece put at an offset. */
  function Filled(chksum: u16, offset: nat, d: seq<byte>): u16 {
    OnesAdd(chksum, if offset % 2 == 1 then SwapBytes(RfcSum(d)) else RfcSum(d))
  }

  /** pbuf_fill_chksum: copies into one pbuf and updates the checksum handed in. */
  method FillChksum(heap: PbufHeap, p: Addr, startOffset: nat, d: seq<byte>, chksum0: u16, addr: nat)
      returns (err: Err, chksum: u16)
    requires p in heap.mem && 0 < |d| < U16
    modifies heap
    ensures err == if startOffset + |d| > old(heap.mem)[p].Len() then ErrArg else ErrOk
    ensures err == ErrArg ==> heap.mem == old(heap.mem) && chksum == chksum0
    ensures err == ErrOk ==> heap.mem == old(heap.mem)[p := Poke(old(heap.mem)[p], startOffset, d)]
    ensures err == ErrOk ==> chksum == Filled(chksum0, startOffset, d)
  {
    chksum := chksum0;
    if startOffset >= heap.mem[p].Len() || startOffset + |d| > heap.mem[p].Len() {
      return ErrArg, chksum;
    }
    heap.mem := heap.mem[p := Poke(heap.mem[p], startOffset, d)];
    var copyChksum := Chksum2(d, addr);
    if startOffset % 2 != 0 {
      copyChksum := SwapBytes(copyChksum);
    }
    FoldOnce(chksum, copyChksum);
    chksum := Fold(chksum + copyChksum);
    err := ErrOk;
  }

  datatype Piece = Piece(offset: nat, data: seq<byte>)

  /** The pieces lie inside b and fall on bytes that no other piece has written: b is zero there. */
  ghost predicate FreshPieces(b: seq<byte>, pieces: seq<Piece>)
    decreases |pieces|
  {
    pieces == [] || (
      var x := pieces[0];
      && x.offset + |x.data| <= |b|
      && (forall i | x.offset <= i < x.offset + |x.data| :: b[i] == 0)
      && FreshPieces(Splice(b, x.offset, x.data), pieces[1..]))
  }

  ghost function Build(b: seq<byte>, pieces: seq<Piece>): seq<byte>
    requires FreshPieces(b, pieces)
    decreases |pieces|
  {
    if pieces == [] then b else Build(Splice(b, pieces[0].offset, pieces[0].data), pieces[1..])
  }

  function FilledAll(chksum: u16, pieces: seq<Piece>): u16
    decreases |pieces|
  {
    if pieces == [] then chksum else FilledAll(Filled(chksum, pieces[0].offset, pieces[0].data), pieces[1..])
  }

  lemma {:induction false} WeightZero(b: seq<byte>, odd: bool)
    requires forall i | 0 <= i < |b| :: b[i] == 0
    ensures Weight(b, odd) == 0
  {
    if b != [] {
      WeightZero(b[1..], !odd);
    }
  }

  /** One piece over zeros: a checksum that was the sum of the buffer is so again. */
  lemma {:induction false} FillStep(b: seq<byte>, offset: nat, d: seq<byte>)
    requires offset + |d| <= |b| && forall i | offset <= i < offset + |d| :: b[i] == 0
    ensures Filled(RfcSum(b), offset, d) == RfcSum(Splice(b, offset, d))
  {
    var odd := offset % 2 == 1;
    var x, z := b[..offset], b[offset + |d|..];
    var hole, n := b[offset..offset + |d|], Splice(b, offset, d);
    assert n == x + d + z && x + d + z == x + (d + z);
    assert b == x + b[offset..] && b[offset..] == hole + z;
    assert Weight(n, false) == Weight(b, false) + Weight(d, odd) by {
      WeightConcat(x, hole + z, false);
      WeightConcat(hole, z, odd);
      WeightConcat(x, d + z, false);
      WeightConcat(d, z, odd);
      WeightZero(hole, odd);
    }
    assert RfcSum(b) == Canon(Weight(b, false)) by { RfcSumIsCanon(b); }
    assert RfcSum(n) == Canon(Weight(n, false)) by { RfcSumIsCanon(n); }
    assert (if odd then SwapBytes(RfcSum(d)) else RfcSum(d)) == Canon(Weight(d, odd)) by {
      RfcSumIsCanon(d);
      SwapWeight(d, false);
    }
    OnesAddCanon(Weight(b, false), Weight(d, odd));
  }

  /** Building a buffer in pieces, of any lengths, at any offsets and in any order, yields the
    * one-pass sum of the whole. */
  lemma {:induction false} FillRun(b: seq<byte>, pieces: seq<Piece>)
    requires FreshPieces(b, pieces)
    ensures FilledAll(RfcSum(b), pieces) == RfcSum(Build(b, pieces))
    decreases |pieces|
  {
    if pieces != [] {
      FillStep(b, pieces[0].offset, pieces[0].data);
      FillRun(Splice(b, pieces[0].offset, pieces[0].data), pieces[1..]);
    }
  }
}
