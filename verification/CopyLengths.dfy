/** When the copy loop of core/pbuf.c gives up although there is room: a matter of the lengths of the
  * pbufs of the two chains alone. */
module CopyLengths {
  /** How pbuf_copy ends: all copied; target used up; a pbuf that looks like the end of a packet. */
  datatype Outcome = Done | TooSmall | TwoPackets

  function Sum(s: seq<nat>): nat {
    if s == [] then 0 else s[0] + Sum(s[1..])
  }

  lemma {:induction false} SumLast(s: seq<nat>)
    requires s != []
    ensures Sum(s) >= s[|s| - 1]
  {
    if |s| > 1 {
      SumLast(s[1..]);
    }
  }

  /** len == tot_len, but there is a next pbuf: what the loop takes for a queue of packets. */
  predicate Queue(s: seq<nat>) {
    |s| > 1 && Sum(s[1..]) == 0
  }

  /** Moving on to the next pbuf when the first one is used up. */
  function Rest(s: seq<nat>, off: nat): seq<nat>
    requires s != []
  {
    if off >= s[0] then s[1..] else s
  }

  function Off(s: seq<nat>, off: nat): nat
    requires s != []
  {
    if off >= s[0] then 0 else off
  }

  function Piece(t: seq<nat>, ot: nat, f: seq<nat>, of: nat): nat
    requires t != [] && f != [] && ot <= t[0] && of <= f[0]
  {
    if t[0] - ot >= f[0] - of then f[0] - of else t[0] - ot
  }

  /** What the loop comes to from byte ot of the first of the target's pbufs t and byte of of the source's f. */
  function Run(t: seq<nat>, ot: nat, f: seq<nat>, of: nat): Outcome
    requires t != [] && f != [] && ot <= t[0] && of <= f[0]
    decreases |t| + |f|
  {
    var n := Piece(t, ot, f, of);
    var t1, f1 := Rest(t, ot + n), Rest(f, of + n);
    if t1 == [] && f1 != [] then TooSmall
    else if Queue(f1) || Queue(t1) then TwoPackets
    else if f1 == [] then Done
    else Run(t1, Off(t, ot + n), f1, Off(f, of + n))
  }

  /** The run goes on from here to a result. */
  predicate Goes(t: seq<nat>, ot: nat, f: seq<nat>, of: nat, result: Outcome) {
    t != [] && f != [] && ot <= t[0] && of <= f[0] && Run(t, ot, f, of) == result
  }

  /** The tests behind a round decide, or the run goes on. */
  predicate Decides(t: seq<nat>, ot: nat, f: seq<nat>, of: nat, result: Outcome) {
    if t == [] && f != [] then result == TooSmall
    else if Queue(f) || Queue(t) then result == TwoPackets
    else if f == [] then result == Done
    else Goes(t, ot, f, of, result)
  }

  /** n bytes on, from byte off of s to byte off1 of s1. */
  predicate Onward(s: seq<nat>, off: nat, n: nat, s1: seq<nat>, off1: nat) {
    s != [] && s1 == Rest(s, off + n) && off1 == Off(s, off + n)
  }

  lemma {:induction false} RoundDecides(t: seq<nat>, ot: nat, f: seq<nat>, of: nat, n: nat,
                                        t1: seq<nat>, ot1: nat, f1: seq<nat>, of1: nat, result: Outcome)
    requires Goes(t, ot, f, of, result) && n == Piece(t, ot, f, of)
    requires Onward(t, ot, n, t1, ot1) && Onward(f, of, n, f1, of1)
    ensures Decides(t1, ot1, f1, of1, result)
  {
  }

  // ---------- the condition ----------

  predicate EndsEmpty(s: seq<nat>) {
    |s| > 1 && s[|s| - 1] == 0
  }

  /** The index of the last nonempty pbuf, and the number of bytes in front of it. */
  function Busy(s: seq<nat>): (k: nat)
    ensures k <= |s| && (s != [] ==> k < |s|)
  {
    if Queue(s) || |s| <= 1 then 0 else 1 + Busy(s[1..])
  }

  function Before(s: seq<nat>): nat {
    if Queue(s) || |s| <= 1 then 0 else s[0] + Before(s[1..])
  }

  /** Copying n bytes brings the target to its last nonempty pbuf. */
  predicate ComesToEnd(t: seq<nat>, n: nat) {
    Before(t) < n || (Before(t) == n && Busy(t) > 0 && t[Busy(t) - 1] > 0)
  }

  /** The target has a queue behind its first or, if that is filled, behind the next ones. */
  predicate QueueAfter(t: seq<nat>, n: nat)
    requires t != []
  {
    if t[0] > n then Queue(t) else Queue(t[1..])
  }

  /** When pbuf_copy fails although the target has room. A source that ends in an empty pbuf fails if it has
    * more than two pbufs or its first one does not fit the target's first. Otherwise the target must end in
    * an empty pbuf, or be filled by a source that has one. */
  predicate Stops(t: seq<nat>, f: seq<nat>)
    requires t != [] && f != []
  {
    if EndsEmpty(f) then
      |f| > 2 || t[0] < f[0] || (t[0] == f[0] && |t| == 1)
      || QueueAfter(t, f[0]) || (t[0] == f[0] && t[1] == 0 && Queue(t[2..]))
    else if f[0] == 0 && |f| == 1 then QueueAfter(t, 0)
    else EndsEmpty(t) && if |t| == 2 then f[0] < t[0] else ComesToEnd(t, Sum(f))
  }

  /** Without empty pbufs at the ends of the chains nothing stops the copy. */
  lemma {:induction false} BusyEndsNeverStop(t: seq<nat>, f: seq<nat>)
    requires t != [] && f != [] && t[|t| - 1] > 0 && f[|f| - 1] > 0
    ensures !Stops(t, f)
  {
  }

  // ---------- the condition is exact ----------

  lemma {:induction false} TwoIsQueue(s: seq<nat>)
    requires |s| == 2 && s[1] == 0
    ensures Queue(s)
  {
    assert s[1..] == [0] && [0][1..] == [];
  }

  /** A source that ends in an empty pbuf and has more than two. */
  lemma {:induction false} LongSourceStops(t: seq<nat>, ot: nat, f: seq<nat>, of: nat)
    requires t != [] && |f| > 2 && ot <= t[0] && of <= f[0] && EndsEmpty(f)
    ensures Run(t, ot, f, of) != Done
    decreases |t| + |f|
  {
    var n := Piece(t, ot, f, of);
    var t1, f1 := Rest(t, ot + n), Rest(f, of + n);
    if t1 != [] && !Queue(f1) && !Queue(t1) {
      if |f1| == 2 {
        TwoIsQueue(f1);
      }
      LongSourceStops(t1, Off(t, ot + n), f1, Off(f, of + n));
    }
  }

  /** A source of one pbuf and an empty one, or of an empty one alone: at most two rounds. */
  lemma {:induction false} ShortSource(t: seq<nat>, f: seq<nat>)
    requires t != [] && Sum(t) >= Sum(f) && f != [] && (|f| == 1 ==> f[0] == 0) && (|f| > 1 ==> |f| == 2 && f[1] == 0)
    ensures Run(t, 0, f, 0) == Done <==> !Stops(t, f)
  {
    if |f| == 2 {
      assert f[1..] == [0] && Sum([0]) == 0 + Sum([0][1..]);
      var n := Piece(t, 0, f, 0);
      var t1, o1 := Rest(t, n), Off(t, n);
      if n == f[0] && t1 != [] && !Queue(t1) {
        assert Run(t, 0, f, 0) == Run(t1, o1, [0], 0);
        assert Rest([0], 0) == [];
        assert Run(t1, o1, [0], 0) == Done <==> !Queue(Rest(t1, o1));
        if n == t[0] && t1[0] == 0 {
          assert t1[1..] == t[2..];
        }
      }
    } else {
      assert f[1..] == [];
    }
  }

  ghost predicate Inside(s: seq<nat>, off: nat) {
    s != [] && (off < s[0] || off == 0)
  }

  /** What decides for a source whose last pbuf is not empty, from any point of the copy. */
  predicate TargetStops(t: seq<nat>, ot: nat, f: seq<nat>, of: nat)
    requires t != [] && f != [] && ot <= t[0] && of <= f[0] <= Sum(f)
  {
    EndsEmpty(t) && if |t| == 2 then f[0] - of < t[0] - ot else ComesToEnd(t, Sum(f) - of + ot)
  }

  ghost predicate Copying(t: seq<nat>, ot: nat, f: seq<nat>, of: nat) {
    && Inside(t, ot) && Inside(f, of) && f[|f| - 1] > 0
    && f[0] <= Sum(f) && Sum(t) - ot >= Sum(f) - of
  }

  lemma {:induction false} BusySource(t: seq<nat>, ot: nat, f: seq<nat>, of: nat)
    requires Copying(t, ot, f, of)
    ensures Run(t, ot, f, of) == Done <==> !TargetStops(t, ot, f, of)
    decreases |t| + |f|
  {
    var n := Piece(t, ot, f, of);
    var t1, o1, f1, g1 := Rest(t, ot + n), Off(t, ot + n), Rest(f, of + n), Off(f, of + n);
    StopsMoves(t, ot, f, of, n, t1, o1, f1, g1);
    if f1 != [] && !Queue(t1) {
      BusySource(t1, o1, f1, g1);
    }
  }

  /** What a round does to the condition. */
  lemma {:induction false} StopsMoves(t: seq<nat>, ot: nat, f: seq<nat>, of: nat, n: nat, t1: seq<nat>, o1: nat,
                                      f1: seq<nat>, g1: nat)
    requires Copying(t, ot, f, of) && n == Piece(t, ot, f, of) && Onward(t, ot, n, t1, o1) && Onward(f, of, n, f1, g1)
    ensures !Queue(f1) && (t1 == [] ==> f1 == [])
    ensures if f1 != [] && !Queue(t1) then Copying(t1, o1, f1, g1)
        && (TargetStops(t1, o1, f1, g1) <==> TargetStops(t, ot, f, of))
            else Queue(t1) <==> TargetStops(t, ot, f, of)
  {
    SourceGoesOn(f, of, n);
    TargetGoesOn(t, ot, n);
    if EndsEmpty(t) {
      TargetMoves(t, ot, n, Sum(f) - of);
    }
  }

  /** A round leaves a source whose last pbuf is not empty at its end or with bytes to copy and no queue. */
  lemma {:induction false} SourceGoesOn(f: seq<nat>, of: nat, n: nat)
    requires Inside(f, of) && f[|f| - 1] > 0 && of + n <= f[0]
    ensures var f1, g1 := Rest(f, of + n), Off(f, of + n);
            && Sum(f) - of > 0
            && (f1 == [] ==> Sum(f) - of == n)
            && (f1 != [] ==>
               Inside(f1, g1) && f1[|f1| - 1] > 0 && !Queue(f1) && Sum(f1) - g1 == Sum(f) - of - n
               && Sum(f1) > g1)
  {
    SumLast(f);
    if |f| > 1 {
      SumLast(f[1..]);
      if |f| > 2 { SumLast(f[2..]); assert f[1..][1..] == f[2..]; }
    }
  }

  lemma {:induction false} TargetGoesOn(t: seq<nat>, ot: nat, n: nat)
    requires Inside(t, ot) && ot + n <= t[0]
    ensures var t1, o1 := Rest(t, ot + n), Off(t, ot + n);
            && (t1 == [] ==> Sum(t) - ot == n)
            && (t1 != [] ==> Inside(t1, o1) && Sum(t1) - o1 == Sum(t) - ot - n)
            && (t1 != [] && !EndsEmpty(t) ==> !Queue(t1) && !EndsEmpty(t1))
  {
    if |t| > 1 {
      SumLast(t[1..]);
      if |t| > 2 { SumLast(t[2..]); assert t[1..][1..] == t[2..]; }
    }
  }

  /** How a round changes the way to the target's last nonempty pbuf, with left bytes still to copy. */
  lemma {:induction false} TargetMoves(t: seq<nat>, ot: nat, n: nat, left: nat)
    requires Inside(t, ot) && EndsEmpty(t) && ot + n <= t[0] && n <= left && left > 0 && Sum(t) - ot >= left
    ensures var t1, o1 := Rest(t, ot + n), Off(t, ot + n);
            && t1 != []
            && (|t| == 2 ==> (Queue(t1) <==> ot + n < t[0]))
            && (|t| > 2 ==> EndsEmpty(t1))
            && (|t| > 2 && Queue(t1) ==> ComesToEnd(t, left + ot))
            && (|t| > 2 && !Queue(t1) ==> |t1| > 2)
            && (|t| > 2 && !Queue(t1) && left == n ==> !ComesToEnd(t, left + ot))
            && (|t| > 2 && !Queue(t1) && left > n ==> (ComesToEnd(t1, left - n + o1) <==> ComesToEnd(t, left + ot)))
  {
    if |t| == 2 {
      assert t[1..] == [0] && Sum([0]) == 0 + Sum([0][1..]);
    } else if ot + n >= t[0] {
      var u := t[1..];
      if |u| == 2 {
        assert u[1..] == [0] && Sum([0]) == 0 + Sum([0][1..]);
      }
      if !Queue(t) && !Queue(u) {
        assert Busy(u) > 0 && t[Busy(t) - 1] == u[Busy(u) - 1];
        BeforeAtLeast(u);
      }
    } else if !Queue(t) {
      BeforeAtLeast(t);
    }
  }

  lemma {:induction false} BeforeAtLeast(s: seq<nat>)
    requires |s| > 1 && !Queue(s)
    ensures Busy(s) > 0 && Before(s) >= s[Busy(s) - 1] && Before(s) >= s[0]
  {
    if |s| > 2 && !Queue(s[1..]) {
      BeforeAtLeast(s[1..]);
      assert s[1..][Busy(s[1..]) - 1] == s[Busy(s) - 1];
    }
  }

  /** With room in the target the copy fails exactly under the condition. */
  lemma {:induction false} RunStops(t: seq<nat>, f: seq<nat>)
    requires t != [] && f != [] && Sum(t) >= Sum(f)
    ensures Run(t, 0, f, 0) == Done <==> !Stops(t, f)
  {
    if EndsEmpty(f) && |f| > 2 {
      LongSourceStops(t, 0, f, 0);
    } else if EndsEmpty(f) || (f[0] == 0 && |f| == 1) {
      ShortSource(t, f);
    } else {
      SumLast(f);
      BusySource(t, 0, f, 0);
    }
  }

  /** Four copies with room: an empty pbuf at an end may be harmless or not. */
  lemma {:induction false} StopsSome()
    ensures !Stops([10], [5, 0]) && !Stops([3, 0, 7], [10])
    ensures Stops([5], [5, 0]) && Stops([5, 5], [10, 0])
  {
    assert [5][1..] == [] && [10][1..] == [] && [5, 5][1..] == [5];
  }
}
