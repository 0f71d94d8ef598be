/** The Internet checksum of core/inet_chksum.c: RFC 1071 as reference and the three
  * implementations of lwip_standard_chksum, each proved equal to it. */
module Checksum {
  import opened Words

  // ---------- reference: section 2 of RFC 1071 ----------

  /** Addition with end-around carry. */
  function OnesAdd(a: u16, b: u16): u16 {
    if a + b < U16 then a + b else a + b - 0xFFFF
  }

  /** One's complement sum of the 16-bit words of a message, zero-padded to an even length. */
  function RfcSum(data: seq<byte>): u16 {
    if |data| == 0 then 0
    else if |data| == 1 then data[0]
    else OnesAdd(Load16(data, 0), RfcSum(data[2..]))
  }

  // ---------- the sum as a residue ----------

  /** The 16-bit representative of n: zero only for zero, otherwise in 1..0xFFFF. */
  function Canon(n: nat): u16 {
    if n == 0 then 0 else (n - 1) % 0xFFFF + 1
  }

  /** The unbounded weighted sum: bytes count 1 and 0x100 alternately, the first one 0x100 if odd. */
  function Weight(data: seq<byte>, odd: bool): nat {
    if |data| == 0 then 0
    else (if odd then 0x100 * data[0] as int else data[0]) + Weight(data[1..], !odd)
  }

  lemma {:induction false} CanonShift(n: nat, k: int)
    requires n > 0 && n + 0xFFFF * k > 0
    ensures Canon(n + 0xFFFF * k) == Canon(n)
  {
    var q, r := (n - 1) / 0xFFFF, (n - 1) % 0xFFFF;
    assert n - 1 + 0xFFFF * k == 0xFFFF * (q + k) + r;
  }

  lemma {:induction false} CanonAdd(a: nat, b: nat)
    ensures Canon(Canon(a) + b) == Canon(a + b)
  {
    if a > 0 {
      var k := (a - 1) / 0xFFFF;
      assert a == Canon(a) + 0xFFFF * k;
      CanonShift(Canon(a) + b, k);
    }
  }

  /** Two folds reduce any 32-bit accumulator to its representative. */
  lemma {:induction false} FoldTwice(x: u32)
    ensures Fold(x) <= 0x1_FFFE
    ensures Fold(Fold(x)) == Canon(x)
  {
    var h := x / U16;
    assert x == Fold(x) + 0xFFFF * h;
    if x > 0 {
      CanonShift(Fold(x), h);
      var y := Fold(x);
      assert y == Fold(y) + 0xFFFF * (y / U16);
      CanonShift(Fold(y), y / U16);
    }
  }

  /** One fold is enough for the sum of two 16-bit values. */
  lemma {:induction false} FoldOnce(a: u16, b: u16)
    ensures Fold(a + b) == OnesAdd(a, b) == Canon(a + b)
  {
  }

  lemma {:induction false} OnesAddCanon(a: nat, b: nat)
    ensures OnesAdd(Canon(a), Canon(b)) == Canon(a + b)
  {
    CanonAdd(a, Canon(b));
    CanonAdd(b, a);
    FoldOnce(Canon(a), Canon(b));
  }

  lemma {:induction false} SwapShift(c: u16)
    ensures SwapBytes(c) as int + 0xFFFF * (c / 0x100) == 0x100 * c as int
    ensures c > 0 ==> SwapBytes(c) > 0
  {
    var h: int, l: int := c / 0x100, c % 0x100;
    assert c == 0x100 * h + l && h < 0x100;
    assert SwapBytes(c) == 0x100 * l + h;
  }

  lemma {:induction false} SwapCanon(n: nat)
    ensures SwapBytes(Canon(n)) == Canon(0x100 * n)
  {
    if n > 0 {
      var c: int, k := Canon(n), (n - 1) / 0xFFFF;
      assert n == c + 0xFFFF * k;
      SwapShift(c);
      CanonShift(SwapBytes(c), c / 0x100);
      CanonShift(0x100 * c, 0x100 * k);
    }
  }

  lemma {:induction false} WeightConcat(a: seq<byte>, b: seq<byte>, odd: bool)
    ensures Weight(a + b, odd) == Weight(a, odd) + Weight(b, odd != (|a| % 2 == 1))
  {
    if |a| == 0 {
      assert a + b == b;
    } else {
      assert (a + b)[1..] == a[1..] + b;
      WeightConcat(a[1..], b, !odd);
    }
  }

  /** Exchanging the two byte positions multiplies the sum by 0x100 modulo 0xFFFF. */
  lemma {:induction false} WeightFlip(data: seq<byte>, odd: bool) returns (k: int)
    ensures 0x100 * Weight(data, odd) == Weight(data, !odd) + 0xFFFF * k
    ensures k >= 0 && (Weight(data, !odd) == 0 ==> k == 0)
  {
    if |data| == 0 {
      k := 0;
    } else {
      var k0 := WeightFlip(data[1..], !odd);
      k := k0 + if odd then data[0] else 0;
    }
  }

  lemma {:induction false} SwapWeight(data: seq<byte>, odd: bool)
    ensures SwapBytes(Canon(Weight(data, odd))) == Canon(Weight(data, !odd))
  {
    SwapCanon(Weight(data, odd));
    var k := WeightFlip(data, odd);
    if Weight(data, !odd) > 0 {
      CanonShift(Weight(data, !odd), k);
    }
  }

  /** The reference sum is the representative of the weighted sum. */
  lemma {:induction false} RfcSumIsCanon(data: seq<byte>)
    ensures RfcSum(data) == Canon(Weight(data, false))
  {
    if |data| == 1 {
      assert data[1..] == [];
    } else if |data| >= 2 {
      assert data[1..][1..] == data[2..];
      RfcSumIsCanon(data[2..]);
      FoldOnce(Load16(data, 0), RfcSum(data[2..]));
      CanonAdd(Weight(data[2..], false), Load16(data, 0));
    }
  }

  /** Byte-order independence and segmentation, section 2 (B) of RFC 1071: the sum of a
    * concatenation is the sum of the parts, the second one swapped behind an odd first part. */
  lemma {:induction false} RfcSumConcat(a: seq<byte>, b: seq<byte>)
    ensures RfcSum(a + b) == OnesAdd(RfcSum(a), if |a| % 2 == 1 then SwapBytes(RfcSum(b)) else RfcSum(b))
  {
    var odd := |a| % 2 == 1;
    var wa, wb := Weight(a, false), Weight(b, odd);
    assert RfcSum(a) == Canon(wa) by { RfcSumIsCanon(a); }
    assert (if odd then SwapBytes(RfcSum(b)) else RfcSum(b)) == Canon(wb) by {
      RfcSumIsCanon(b);
      SwapWeight(b, false);
    }
    assert RfcSum(a + b) == Canon(wa + wb) by {
      RfcSumIsCanon(a + b);
      WeightConcat(a, b, false);
    }
    OnesAddCanon(wa, wb);
  }

  // ---------- the implementations ----------

  /** Two bytes of the weighted sum at once. */
  lemma {:induction false} WeightStep(data: seq<byte>, i: nat, odd: bool)
    requires i + 2 <= |data|
    ensures odd ==> Weight(data[i..], odd) == 0x100 * data[i] as int + data[i + 1] + Weight(data[i + 2..], odd)
    ensures !odd ==> Weight(data[i..], odd) == Load16(data, i) + Weight(data[i + 2..], odd)
  {
    assert data[i..][1..][1..] == data[i + 2..];
  }

  lemma {:induction false} WeightLast(data: seq<byte>, i: nat, odd: bool)
    requires i + 1 == |data|
    ensures Weight(data[i..], odd) == if odd then 0x100 * data[i] as int else data[i]
  {
    assert data[i..][1..] == [];
  }

  /** Version 1: network-order words, deferred carries, one final byte swap. */
  method Chksum1(data: seq<byte>) returns (r: u16)
    requires |data| <= 0x2_0000
    ensures r == RfcSum(data)
  {
    var acc: u32 := 0;
    var octet, len := 0, |data|;
    while len > 1
      invariant 0 <= len && octet + len == |data| && octet % 2 == 0
      invariant acc <= octet / 2 * 0xFFFF
      invariant acc + Weight(data[octet..], true) == Weight(data, true)
    {
      WeightStep(data, octet, true);
      var src: u16 := 0x100 * data[octet] as int;
      src := src + data[octet + 1];
      octet := octet + 2;
      acc := acc + src;
      len := len - 2;
    }
    if len > 0 {
      WeightLast(data, octet, true);
      acc := acc + 0x100 * data[octet] as int;
    }
    FoldTwice(acc);
    acc := Fold(acc);
    if acc / U16 != 0 {
      acc := Fold(acc);
    }
    SwapWeight(data, true);
    RfcSumIsCanon(data);
    r := SwapBytes(acc);
  }

  /** Closes versions 2 and 3: the end bytes are in, and an odd start is swapped back. */
  lemma {:induction false} FinishOdd(data: seq<byte>, odd: bool, sum: nat, k: int)
    requires sum + 0xFFFF * k == Weight(data, odd) && (sum == 0 <==> Weight(data, odd) == 0)
    ensures RfcSum(data) == if odd then SwapBytes(Canon(sum)) else Canon(sum)
  {
    if sum > 0 {
      CanonShift(sum, k);
    }
    SwapWeight(data, odd);
    RfcSumIsCanon(data);
  }

  /** Version 2: host-order words from a 16-bit aligned address, `addr` being the start address. */
  method Chksum2(data: seq<byte>, addr: nat) returns (r: u16)
    requires |data| <= 0x2_0000
    ensures r == RfcSum(data)
  {
    var odd := addr % 2 == 1;
    var pb, len := 0, |data|;
    var t: u16, sum: u32 := 0, 0;
    if odd && len > 0 {
      t := 0x100 * data[0] as int;
      pb, len := 1, len - 1;
    }
    while len > 1
      invariant 0 <= len && pb + len == |data|
      invariant sum <= pb / 2 * 0xFFFF
      invariant t % 0x100 == 0
      invariant odd && |data| > 0 ==> pb % 2 == 1
      invariant pb % 2 == 1 ==> odd
      invariant t + sum + Weight(data[pb..], false) == Weight(data, odd)
    {
      WeightStep(data, pb, false);
      sum := sum + Load16(data, pb);
      pb, len := pb + 2, len - 2;
    }
    if len > 0 {
      WeightLast(data, pb, false);
      t := t + data[pb];
    }
    sum := sum + t;
    FinishOdd(data, odd, sum, 0);
    FoldTwice(sum);
    sum := Fold(sum);
    sum := Fold(sum);
    if odd {
      sum := SwapBytes(sum);
    }
    r := sum;
  }

  /** Adds a 32-bit word with end-around carry, as the unrolled loop of version 3 does. */
  method AddCarry(sum: u32, word: u32) returns (r: u32)
    ensures r == sum + word || (r == sum + word - 0xFFFF_FFFF && r > 0)
  {
    r := (sum + word) % U32;
    if r < sum {
      r := r + 1;
    }
  }

  lemma {:induction false} WeightStep32(data: seq<byte>, i: nat) returns (w: nat)
    requires i + 4 <= |data|
    ensures Weight(data[i..], false) + 0xFFFF * w == Load32(data, i) + Weight(data[i + 4..], false)
    ensures Load32(data, i) == 0 ==> w == 0
    ensures Weight(data[i..], false) == 0 ==> Load32(data, i) == 0
  {
    WeightStep(data, i, false);
    WeightStep(data, i + 2, false);
    w := Load16(data, i + 2);
  }

  /** The unrolled loop of version 3. */
  method Sum32(data: seq<byte>, start: nat, sum0: u32) returns (pb: nat, sum: u32, ghost k: int)
    requires start <= |data|
    ensures start <= pb <= |data| && |data| - pb < 8 && pb % 2 == start % 2
    ensures sum + 0xFFFF * k + Weight(data[pb..], false) == sum0 + Weight(data[start..], false)
    ensures sum == 0 ==> sum0 == 0 == k
    ensures sum0 + Weight(data[start..], false) == 0 ==> sum == 0
  {
    pb, sum, k := start, sum0, 0;
    while |data| - pb > 7
      invariant start <= pb <= |data| && pb % 2 == start % 2
      invariant sum == 0 ==> sum0 == 0 == k
      invariant sum0 + Weight(data[start..], false) == 0 ==> sum == 0
      invariant sum + 0xFFFF * k + Weight(data[pb..], false) == sum0 + Weight(data[start..], false)
    {
      pb, sum, k := Sum32Step(data, pb, sum, k);
      pb, sum, k := Sum32Step(data, pb, sum, k);
    }
  }

  /** One half ("ping" or "pong") of an iteration of that loop. */
  method Sum32Step(data: seq<byte>, start: nat, sum0: u32, ghost k0: int) returns (pb: nat, sum: u32, ghost k: int)
    requires start + 4 <= |data| && (sum0 == 0 ==> k0 == 0)
    ensures pb == start + 4
    ensures sum + 0xFFFF * k + Weight(data[pb..], false) == sum0 + 0xFFFF * k0 + Weight(data[start..], false)
    ensures sum == 0 ==> sum0 == 0 == k
    ensures sum0 + Weight(data[start..], false) == 0 ==> sum == 0
  {
    ghost var w := WeightStep32(data, start);
    var word := Load32(data, start);
    sum := AddCarry(sum0, word);
    k := k0 - w + if sum == sum0 + word then 0 else 0x1_0001;
    pb := start + 4;
  }

  /** The 16-bit words left behind the unrolled loop. */
  method Sum16(data: seq<byte>, start: nat, sum0: u32) returns (pb: nat, sum: u32)
    requires start <= |data| < start + 8 && sum0 <= 0x1_FFFE
    ensures start <= pb <= |data| <= pb + 1 && pb % 2 == start % 2
    ensures sum0 <= sum <= 0x4_FFFB && sum + Weight(data[pb..], false) == sum0 + Weight(data[start..], false)
  {
    pb, sum := start, sum0;
    while |data| - pb > 1
      invariant start <= pb <= |data| && pb % 2 == start % 2
      invariant sum0 <= sum <= 0x1_FFFE + (pb - start) / 2 * 0xFFFF
      invariant sum + Weight(data[pb..], false) == sum0 + Weight(data[start..], false)
    {
      WeightStep(data, pb, false);
      sum := sum + Load16(data, pb);
      pb := pb + 2;
    }
  }

  /** Version 3: 32-bit words, two per iteration, with the carry added back at once. */
  method Chksum3(data: seq<byte>, addr: nat) returns (r: u16)
    ensures r == RfcSum(data)
  {
    var odd := addr % 2 == 1;
    var pb := 0;
    var t: u16, sum: u32 := 0, 0;
    if odd && |data| > 0 {
      t := 0x100 * data[0] as int;
      pb := 1;
    }
    if (addr + pb) % 4 != 0 && |data| - pb > 1 {
      WeightStep(data, pb, false);
      sum := sum + Load16(data, pb);
      pb := pb + 2;
    }
    assert t + sum + Weight(data[pb..], false) == Weight(data, odd);
    ghost var k: int;
    pb, sum, k := Sum32(data, pb, sum);
    k := k + sum / U16;
    FoldTwice(sum);
    sum := Fold(sum);
    pb, sum := Sum16(data, pb, sum);
    if pb < |data| {
      WeightLast(data, pb, false);
      t := t + data[pb];
    }
    sum := sum + t;
    FinishOdd(data, odd, sum, k);
    FoldTwice(sum);
    sum := Fold(sum);
    sum := Fold(sum);
    if odd {
      sum := SwapBytes(sum);
    }
    r := sum;
  }
}
