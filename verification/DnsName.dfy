/** Host names of core/dns.c: the encoder of dns_send and its readers dns_compare_name and dns_skip_name. */
module DnsName {
  import opened Words

  const DOT: byte := 46
  const HDR: nat := 12
  const QUERY: nat := 4
  const MAX_NAME: nat := 255
  const COMPRESSED: nat := 0xC0

  /** A name as it is kept in the table: without NULs and shorter than DNS_MAX_NAME_LENGTH. */
  ghost predicate Hostname(name: seq<byte>) {
    |name| <= MAX_NAME && forall i | 0 <= i < |name| :: name[i] != 0
  }

  // ---------- the wire form ----------

  /** The length of the label that starts at k. */
  function LabelLen(name: seq<byte>, k: nat): (n: nat)
    requires k <= |name|
    ensures k + n <= |name|
    ensures forall i | k <= i < k + n :: name[i] != DOT
    ensures k + n < |name| ==> name[k + n] == DOT
    decreases |name| - k
  {
    if k == |name| || name[k] == DOT then 0 else 1 + LabelLen(name, k + 1)
  }

  /** Whether a label starts at k. */
  predicate LabelAt(name: seq<byte>, k: nat)
    requires k <= |name|
  {
    k == 0 || name[k - 1] == DOT
  }

  /** The wire form of sections 3.1 and 4.1.2 of RFC 1035: every character moves up by one place, each
    * label's length stands in front of it and replaces the dot there, and a zero ends the name. */
  function Encoded(name: seq<byte>): seq<byte>
    requires |name| <= MAX_NAME
  {
    seq(|name| + 2, i requires 0 <= i < |name| + 2 =>
      if i == |name| + 1 then 0 else if LabelAt(name, i) then LabelLen(name, i) else name[i - 1])
  }

  lemma {:induction false} LabelLenIs(name: seq<byte>, k: nat, n: nat)
    requires k + n <= |name| && (k + n < |name| ==> name[k + n] == DOT)
    requires forall i | k <= i < k + n :: name[i] != DOT
    ensures LabelLen(name, k) == n
  {
  }

  /** The labels up to position k are written: p holds the wire form of the name up to there. */
  ghost predicate Written(name: seq<byte>, p: seq<byte>, was: seq<byte>, k: nat)
    requires k <= |name| + 2 <= MAX_NAME + 2 && |p| == |was| == HDR + |name| + 2 + QUERY
  {
    forall j {:trigger p[j]} | 0 <= j < |p| ::
      p[j] == if HDR <= j < HDR + k then Encoded(name)[j - HDR] else was[j]
  }

  lemma {:induction false} LabelWritten(name: seq<byte>, p: seq<byte>, was: seq<byte>, r: seq<byte>, k: nat, n: nat)
    requires |name| <= MAX_NAME && |p| == |was| == |r| == HDR + |name| + 2 + QUERY
    requires k <= |name| && LabelAt(name, k) && n == LabelLen(name, k) && Written(name, p, was, k)
    requires forall j {:trigger r[j]} | 0 <= j < |r| ::
               r[j] == if j == HDR + k then n else if HDR + k < j <= HDR + k + n then name[j - HDR - 1] else p[j]
    ensures Written(name, r, was, k + n + 1)
  {
  }

  /** The name part of dns_send: writes the name into a message that has room for header, name and
    * query. The overflow exit is never taken, and nothing but the name's bytes changes. */
  method SendName(p: array<byte>, name: seq<byte>) returns (ok: bool, queryIdx: nat)
    requires Hostname(name) && p.Length == HDR + |name| + 2 + QUERY
    modifies p
    ensures ok && queryIdx == HDR + |name| + 2
    ensures p[..] == old(p[..])[..HDR] + Encoded(name) + old(p[..])[queryIdx..]
  {
    ghost var was := p[..];
    queryIdx := HDR;
    var hostname := 0;
    while true
      invariant 0 <= hostname <= |name| && LabelAt(name, hostname) && queryIdx == HDR + hostname
      invariant Written(name, p[..], was, hostname)
      decreases |name| - hostname
    {
      var part, n: u16 := hostname, 0;
      while hostname < |name| && name[hostname] != DOT
        invariant part <= hostname <= |name| && n == hostname - part
        invariant forall i | part <= i < hostname :: name[i] != DOT
      {
        n := (n + 1) % 0x100;
        hostname := hostname + 1;
      }
      LabelLenIs(name, part, n);
      var copyLen := hostname - part;
      if queryIdx + n + 1 > 0xFFFF {
        return false, queryIdx;
      }
      ghost var before := p[..];
      PutLabel(p, name[part..hostname], queryIdx);
      LabelWritten(name, before, was, p[..], part, n);
      queryIdx := queryIdx + n + 1;
      if hostname == |name| {
        break;
      }
      hostname := hostname + 1;
    }
    ghost var done := p[..];
    p[queryIdx] := 0;
    assert p[..] == done[queryIdx := 0];
    queryIdx := queryIdx + 1;
    ok := true;
    assert p[..] == was[..HDR] + Encoded(name) + was[queryIdx..];
  }

  /** The length byte by pbuf_put_at and the characters by pbuf_take_at. */
  method PutLabel(p: array<byte>, chars: seq<byte>, at: nat)
    requires |chars| <= MAX_NAME && at + 1 + |chars| <= p.Length
    modifies p
    ensures forall j {:trigger p[j]} | 0 <= j < p.Length ::
              p[j] == if j == at then |chars| else if at < j <= at + |chars| then chars[j - at - 1] else old(p[j])
  {
    p[at] := |chars|;
    var i := 0;
    while i < |chars|
      invariant 0 <= i <= |chars|
      invariant forall j {:trigger p[j]} | 0 <= j < p.Length ::
                  p[j] == if j == at then |chars| else if at < j <= at + i then chars[j - at - 1] else old(p[j])
    {
      p[at + 1 + i] := chars[i];
      i := i + 1;
    }
  }

  // ---------- the structure of a name in a message ----------

  /** How a walk over the labels ends: off the message, at a compression pointer, or at the root label. */
  datatype Stop = Lost | Compressed(at: nat) | Root(at: nat)

  /** Where the name that starts at off stops. The first label may be empty; any later empty label is the root. */
  function NameStop(p: seq<byte>, off: nat): (s: Stop)
    ensures s.Compressed? ==> off <= s.at < |p|
    ensures s.Root? ==> off < s.at < |p| && p[off] < COMPRESSED && off + 1 + p[off] <= s.at
    decreases |p| - off
  {
    if off >= |p| then Lost
    else if p[off] >= COMPRESSED then Compressed(off)
    else
      var next := off + 1 + p[off];
      if next >= |p| then Lost else if p[next] == 0 then Root(next) else NameStop(p, next)
  }

  /** Whether the walk from start meets a length byte at j. */
  predicate LengthAt(p: seq<byte>, start: nat, j: nat)
    requires start <= j
    decreases j - start
  {
    j == start || (start < |p| && start + 1 + p[start] <= j && LengthAt(p, start + 1 + p[start], j))
  }

  lemma {:induction false} LengthNext(p: seq<byte>, start: nat, off: nat, j: nat)
    requires start <= off < j && off < |p| && LengthAt(p, start, off) && j <= off + 1 + p[off]
    ensures LengthAt(p, start, j) <==> j == off + 1 + p[off]
    decreases off - start
  {
    if off > start {
      LengthNext(p, start + 1 + p[start], off, j);
    }
  }

  /** tolower in the C locale. */
  function Lower(c: byte): byte {
    if 65 <= c <= 90 then c + 32 else c
  }

  /** The same letter of the alphabet, once as a capital. */
  predicate OtherCase(x: byte, y: byte) {
    (65 <= x <= 90 && y == x + 32) || (65 <= y <= 90 && x == y + 32)
  }

  /** No two characters are taken for the same but the capital and the small form of a letter. */
  lemma {:induction false} LowerIs(x: byte, y: byte)
    ensures Lower(x) == Lower(y) <==> x == y || OtherCase(x, y)
  {
  }

  /** The characters of the name that stands at start..at agree with the query's, whatever their case. The
    * separators are not looked at. The query is what follows a char pointer in memory. */
  ghost predicate Agrees(query: nat -> byte, p: seq<byte>, start: nat, at: nat)
    requires start < at <= |p|
  {
    forall j {:trigger p[j]} | start < j < at && !LengthAt(p, start, j) :: Lower(query(j - start - 1)) == Lower(p[j])
  }

  /** pbuf_try_get_at. */
  function TryGet(p: seq<byte>, offset: u16): int {
    if offset < |p| then p[offset] else -1
  }

  ghost predicate Compared(query: nat -> byte, p: seq<byte>, start: nat, off: nat) {
    && start <= off && LengthAt(p, start, off) && NameStop(p, start) == NameStop(p, off)
    && (off < |p| ==> AgreesUpTo(query, p, start, off))
  }

  ghost predicate AgreesUpTo(query: nat -> byte, p: seq<byte>, start: nat, end: nat)
    requires end <= |p|
  {
    forall j {:trigger p[j]} | start < j < end && !LengthAt(p, start, j) :: Lower(query(j - start - 1)) == Lower(p[j])
  }

  /** dns_compare_name: the offset behind the name exactly if it is uncompressed and agrees. Its two checks
    * for an offset that would overflow never fire, for no message is longer than 0xFFFF bytes. */
  method CompareName(query: nat -> byte, p: seq<byte>, start: u16) returns (r: u16)
    requires |p| <= 0xFFFF
    ensures var s := NameStop(p, start);
            r == if s.Root? && Agrees(query, p, start, s.at) then s.at + 1 else 0xFFFF
  {
    var off, q := start, 0;
    while true
      invariant start <= off <= 0xFFFF && q == off - start && Compared(query, p, start, off)
      decreases 0xFFFF - off
    {
      var n: int := TryGet(p, off);
      if n < 0 || off == 0xFFFF {
        return 0xFFFF;
      }
      ghost var head := off;
      ghost var next := off + 1 + n;
      off := off + 1;
      if n >= COMPRESSED {
        return 0xFFFF;
      }
      while n > 0
        invariant 0 <= n && off + n == next && head < off && q == off - start - 1
        invariant off <= |p| && AgreesUpTo(query, p, start, off)
        decreases n
      {
        var c: int := TryGet(p, off);
        if c < 0 {
          return 0xFFFF;
        }
        LengthNext(p, start, head, off);
        if Lower(query(q)) != Lower(c) {
          return 0xFFFF;
        }
        if off == 0xFFFF {
          assert false;
        }
        off, q, n := off + 1, q + 1, n - 1;
      }
      q := q + 1;
      LengthNext(p, start, head, next);
      n := TryGet(p, off);
      if n < 0 {
        return 0xFFFF;
      }
      if n == 0 {
        break;
      }
    }
    if off == 0xFFFF {
      assert false;
    }
    r := off + 1;
  }

  /** dns_skip_name: the offset behind the name, which a pointer of two bytes may end. */
  method SkipName(p: seq<byte>, queryIdx: u16) returns (r: u16)
    requires |p| <= 0xFFFF
    ensures r == match NameStop(p, queryIdx)
                 case Lost => 0xFFFF
                 case Compressed(at) => Min(at + 2, 0xFFFF)
                 case Root(at) => at + 1
  {
    var off := queryIdx;
    while true
      invariant queryIdx <= off <= 0xFFFF && NameStop(p, queryIdx) == NameStop(p, off)
      decreases 0xFFFF - off
    {
      var n: int := TryGet(p, off);
      off := (off + 1) % U16;
      if n < 0 || off == 0 {
        return 0xFFFF;
      }
      if n >= COMPRESSED {
        break;
      }
      if off + n >= |p| {
        return 0xFFFF;
      }
      off := off + n;
      n := TryGet(p, off);
      if n < 0 {
        assert false;
      }
      if n == 0 {
        break;
      }
    }
    if off == 0xFFFF {
      return 0xFFFF;
    }
    r := off + 1;
  }

  // ---------- the round trip ----------

  /** The labels from k on that a reader understands: none is longer than 191, none but the first is empty. */
  predicate ReadableFrom(name: seq<byte>, k: nat)
    requires k <= |name|
    decreases |name| - k
  {
    var next := k + LabelLen(name, k) + 1;
    LabelLen(name, k) < COMPRESSED && (next <= |name| ==> LabelLen(name, next) > 0 && ReadableFrom(name, next))
  }

  /** The labels RFC 1035 allows, section 2.3.4, are readable. */
  lemma {:induction false} RfcNameReadable(name: seq<byte>, k: nat)
    requires k <= |name| && LabelAt(name, k)
    requires forall i | 0 <= i <= |name| && LabelAt(name, i) :: 1 <= LabelLen(name, i) <= 63
    ensures ReadableFrom(name, k)
    decreases |name| - k
  {
    var next := k + LabelLen(name, k) + 1;
    if next <= |name| {
      assert LabelAt(name, next);
      RfcNameReadable(name, next);
    }
  }

  ghost predicate Carries(p: seq<byte>, start: nat, name: seq<byte>)
    requires |name| <= MAX_NAME
  {
    start + |name| + 2 <= |p| && p[start..start + |name| + 2] == Encoded(name)
  }

  lemma {:induction false} CarriesAt(p: seq<byte>, start: nat, name: seq<byte>, i: nat)
    requires |name| <= MAX_NAME && Carries(p, start, name) && i <= |name| + 1
    ensures p[start + i] == Encoded(name)[i]
  {
    assert p[start + i] == p[start..start + |name| + 2][i];
  }

  /** The length bytes of an encoded name and the zero behind it. */
  ghost predicate HasLengths(p: seq<byte>, start: nat, name: seq<byte>) {
    && start + |name| + 1 < |p| && p[start + |name| + 1] == 0
    && forall k {:trigger LabelLen(name, k)} | 0 <= k <= |name| && LabelAt(name, k) :: p[start + k] == LabelLen(name, k)
  }

  lemma {:induction false} LengthsCarried(p: seq<byte>, start: nat, name: seq<byte>)
    requires Hostname(name) && Carries(p, start, name)
    ensures HasLengths(p, start, name)
  {
    CarriesAt(p, start, name, |name| + 1);
    forall k {:trigger LabelLen(name, k)} | 0 <= k <= |name| && LabelAt(name, k)
        ensures p[start + k] == LabelLen(name, k) {
      CarriesAt(p, start, name, k);
    }
  }

  /** A walk over an encoded name ends behind its last character exactly if its labels are readable. */
  lemma {:induction false} EncodedStop(p: seq<byte>, start: nat, name: seq<byte>, k: nat)
    requires HasLengths(p, start, name) && k <= |name| && LabelAt(name, k)
    ensures NameStop(p, start + k) == Root(start + |name| + 1) <==> ReadableFrom(name, k)
    decreases |name| - k
  {
    var next := k + LabelLen(name, k) + 1;
    if next <= |name| {
      EncodedStop(p, start, name, next);
      assert p[start + next] == LabelLen(name, next);
    }
  }

  /** The text that a name in a message stands for: its labels with dots between them. */
  function Text(p: seq<byte>, off: nat): seq<byte>
    decreases |p| - off
  {
    if off >= |p| || off + 1 + p[off] >= |p| then []
    else
      var next := off + 1 + p[off];
      p[off + 1..next] + if p[next] == 0 then [] else [DOT] + Text(p, next)
  }

  /** What was encoded is read as the same text, character by character, if its labels are readable. */
  lemma {:induction false} EncodedText(p: seq<byte>, start: nat, name: seq<byte>, k: nat)
    requires Hostname(name) && Carries(p, start, name) && k <= |name| && LabelAt(name, k) && ReadableFrom(name, k)
    ensures Text(p, start + k) == name[k..]
    decreases |name| - k
  {
    var n := LabelLen(name, k);
    var m := k + n + 1;
    if m <= |name| {
      NextReadable(name, k, n);
      EncodedText(p, start, name, m);
    }
    LabelThen(p, start, name, k, n);
  }

  lemma {:induction false} LabelThen(p: seq<byte>, start: nat, name: seq<byte>, k: nat, n: nat)
    requires Hostname(name) && Carries(p, start, name) && k <= |name| && LabelAt(name, k) && ReadableFrom(name, k)
    requires n == LabelLen(name, k) && (k + n < |name| ==> Text(p, start + (k + n + 1)) == name[k + n + 1..])
    ensures Text(p, start + k) == name[k..]
  {
    LabelCarried(p, start, name, k, n);
    assert start + (k + n + 1) == start + k + n + 1;
    TextStep(p, start + k, name, k, n);
  }

  lemma {:induction false} NextReadable(name: seq<byte>, k: nat, n: nat)
    requires k + n < |name| && n == LabelLen(name, k) && ReadableFrom(name, k)
    ensures LabelAt(name, k + n + 1) && ReadableFrom(name, k + n + 1)
  {
  }

  /** A label, and what follows it. */
  lemma {:induction false} TextStep(p: seq<byte>, off: nat, name: seq<byte>, k: nat, n: nat)
    requires k + n <= |name| && off + n + 1 < |p| && p[off] == n && p[off + 1..off + 1 + n] == name[k..k + n]
    requires p[off + n + 1] == 0 <==> k + n == |name|
    requires k + n < |name| ==> name[k + n] == DOT && Text(p, off + n + 1) == name[k + n + 1..]
    ensures Text(p, off) == name[k..]
  {
    if k + n < |name| {
      assert name[k..] == name[k..k + n] + ([DOT] + name[k + n + 1..]);
    } else {
      assert name[k..] == name[k..k + n] + [];
    }
  }

  lemma {:induction false} LabelCarried(p: seq<byte>, start: nat, name: seq<byte>, k: nat, n: nat)
    requires Hostname(name) && Carries(p, start, name) && k <= |name| && LabelAt(name, k) && ReadableFrom(name, k)
    requires n == LabelLen(name, k)
    ensures start + k + n + 1 < |p| && p[start + k] == n && p[start + k + 1..start + k + 1 + n] == name[k..k + n]
    ensures p[start + k + n + 1] == 0 <==> k + n == |name|
  {
    CarriesAt(p, start, name, k);
    CarriesAt(p, start, name, k + n + 1);
    CharsCarried(p, start, name, k, n);
  }

  /** The characters of a label. */
  lemma {:induction false} CharsCarried(p: seq<byte>, start: nat, name: seq<byte>, k: nat, n: nat)
    requires |name| <= MAX_NAME && Carries(p, start, name) && k + n <= |name| && n == LabelLen(name, k)
    ensures p[start + k + 1..start + k + 1 + n] == name[k..k + n]
  {
    var chars := p[start + k + 1..start + k + 1 + n];
    forall i | 0 <= i < n ensures chars[i] == name[k..k + n][i] {
      CarriesAt(p, start, name, k + 1 + i);
      assert name[k + i] != DOT;
    }
  }

  /** Such a walk meets length bytes only where labels start or the name ends. */
  lemma {:induction false} EncodedLengths(p: seq<byte>, start: nat, name: seq<byte>, k: nat, j: nat)
    requires Hostname(name) && Carries(p, start, name) && k <= |name| && LabelAt(name, k)
    requires k <= j <= |name|
    ensures LengthAt(p, start + k, start + j) <==> LabelAt(name, j) || j == k
    decreases |name| - k
  {
    var next := k + LabelLen(name, k) + 1;
    CarriesAt(p, start, name, k);
    if next <= j {
      EncodedLengths(p, start, name, next, j);
    } else if k < j {
      assert name[j - 1] != DOT;
    }
  }

  /** Every case variant of an encoded name agrees with it. */
  lemma {:induction false} EncodedAgrees(query: nat -> byte, p: seq<byte>, start: nat, name: seq<byte>)
    requires Hostname(name) && Carries(p, start, name)
    requires forall i | 0 <= i < |name| :: Lower(query(i)) == Lower(name[i])
    ensures Agrees(query, p, start, start + |name| + 1)
  {
    forall j {:trigger p[j]} | start < j < start + |name| + 1 && !LengthAt(p, start, j)
      ensures Lower(query(j - start - 1)) == Lower(p[j])
    {
      EncodedLengths(p, start, name, 0, j - start);
      CarriesAt(p, start, name, j - start);
    }
  }

  /** The round trip: both readers return the offset just behind what the encoder wrote, whatever follows
    * it, exactly if the labels are readable. */
  method ReadBack(query: nat -> byte, p: seq<byte>, start: u16, name: seq<byte>) returns (compared: u16, skipped: u16)
    requires Hostname(name) && |p| < 0xFFFF && Carries(p, start, name)
    requires forall i | 0 <= i < |name| :: Lower(query(i)) == Lower(name[i])
    ensures compared == start + |name| + 2 <==> ReadableFrom(name, 0)
    ensures ReadableFrom(name, 0) ==> skipped == start + |name| + 2
  {
    LengthsCarried(p, start, name);
    EncodedStop(p, start, name, 0);
    EncodedAgrees(query, p, start, name);
    compared := CompareName(query, p, start);
    skipped := SkipName(p, start);
  }

  /** Names the readers do not follow to their end: with an empty label in the middle, and with a label so
    * long that its length looks like a compression pointer. */
  lemma {:induction false} UnreadableNames()
    ensures var name := [97, DOT, DOT, 98]; Hostname(name) && !ReadableFrom(name, 0)
    ensures var name := seq(192, _ => 97); Hostname(name) && !ReadableFrom(name, 0)
  {
    var empty := [97, DOT, DOT, 98];
    LabelLenIs(empty, 0, 1);
    LabelLenIs(empty, 2, 0);
    var long: seq<byte> := seq(192, _ => 97);
    LabelLenIs(long, 0, 192);
  }
}
