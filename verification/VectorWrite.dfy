/** The resumable vectored write of a TCP netconn: lwip_netconn_do_write, lwip_netconn_do_writemore, sent_tcp,
  * poll_tcp and err_tcp of api/api_msg.c, and the size check of netconn_write_vectors_partly. */
module VectorWrite {
  import opened Words

  datatype Err = OK | MEM | WOULDBLOCK | INPROGRESS | RTE | CONN | VAL | ABRT

  datatype ConnState = NONE | WRITE | LISTEN

  // ---------- the bytes of the vectors ----------

  function Flat(vectors: seq<seq<byte>>): seq<byte> {
    if vectors == [] then [] else Flat(vectors[..|vectors| - 1]) + vectors[|vectors| - 1]
  }

  lemma {:induction false} FlatPrefix(vectors: seq<seq<byte>>, i: nat)
    requires i <= |vectors|
    ensures Flat(vectors[..i]) <= Flat(vectors)
  {
    if i < |vectors| {
      var n := |vectors| - 1;
      FlatPrefix(vectors[..n], i);
      assert vectors[..n][..i] == vectors[..i];
    } else {
      assert vectors[..i] == vectors;
    }
  }

  lemma {:induction false} FlatAt(vectors: seq<seq<byte>>, idx: nat, off: nat, n: nat)
    requires idx < |vectors| && off + n <= |vectors[idx]|
    ensures var base := |Flat(vectors[..idx])|;
            && base + off + n <= |Flat(vectors)|
            && Flat(vectors)[base + off..base + off + n] == vectors[idx][off..off + n]
            && |Flat(vectors[..idx + 1])| == base + |vectors[idx]|
  {
    var part := vectors[..idx + 1];
    FlatPrefix(vectors, idx + 1);
    assert part[..idx] == vectors[..idx];
    assert Flat(part) == Flat(vectors[..idx]) + vectors[idx];
    var base := |Flat(vectors[..idx])|;
    Behind(Flat(vectors[..idx]), vectors[idx], off, n);
    assert Flat(vectors)[base + off..base + off + n] == Flat(part)[base + off..base + off + n];
  }

  lemma {:induction false} Behind(before: seq<byte>, v: seq<byte>, off: nat, n: nat)
    requires off + n <= |v|
    ensures (before + v)[|before| + off..|before| + off + n] == v[off..off + n]
  {
  }

  /** Vectors of 1 to 0xFFFF bytes, as many as 16 bits can count. */
  ghost predicate Sized(vectors: seq<seq<byte>>) {
    && 1 <= |vectors| <= 0xFFFF
    && forall i {:trigger vectors[i]} | 0 <= i < |vectors| :: 1 <= |vectors[i]| <= 0xFFFF
  }

  // ---------- where a write stands ----------

  /** The vectors of a message, the current one, how much of it is written, how many are left, and the bytes
    * written of len. These are vector, vector_off, vector_cnt, offset and len of the message. */
  datatype Cursor = Cursor(vectors: seq<seq<byte>>, idx: nat, off: nat, cnt: u16, offset: nat, len: nat) {
    /** The next byte to write is byte offset of the whole. */
    ghost predicate Inside() {
      && Sized(vectors) && idx < |vectors| && cnt == |vectors| - idx && off < |vectors[idx]|
      && offset == |Flat(vectors[..idx])| + off < |Flat(vectors)|
    }

    /** All is written. */
    ghost predicate AtEnd() {
      Sized(vectors) && cnt == 0 && offset == |Flat(vectors)|
    }

    /** tcp_write has taken n bytes; diff are left of the current vector. */
    function Advanced(diff: nat, n: nat): Cursor {
      var c := this.(offset := offset + n, off := off + n);
      if n != diff then c
      else
        var left := (cnt - 1) % U16;
        if left > 0 then c.(cnt := left, idx := idx + 1, off := 0) else c.(cnt := 0)
    }
  }

  /** The bytes handed to tcp_write are the next ones of the whole, and the cursor moves behind them. */
  lemma {:induction false} Advances(c: Cursor, n: nat)
    requires c.Inside() && c.off + n <= |c.vectors[c.idx]|
    ensures c.offset + n <= |Flat(c.vectors)|
    ensures Flat(c.vectors)[..c.offset] + c.vectors[c.idx][c.off..c.off + n] == Flat(c.vectors)[..c.offset + n]
    ensures var d := c.Advanced(|c.vectors[c.idx]| - c.off, n);
            && (if c.offset + n < |Flat(c.vectors)| then d.Inside() else d.AtEnd())
            && d.vectors == c.vectors && d.len == c.len && d.offset == c.offset + n
            && (d.AtEnd() <==> c.cnt == 1 && n == |c.vectors[c.idx]| - c.off)
  {
    FlatAt(c.vectors, c.idx, c.off, n);
    var flat := Flat(c.vectors);
    assert flat[..c.offset] + flat[c.offset..c.offset + n] == flat[..c.offset + n];
    AdvancesTo(c, n);
  }

  lemma {:induction false} AdvancesTo(c: Cursor, n: nat)
    requires c.Inside() && c.off + n <= |c.vectors[c.idx]|
    ensures var d := c.Advanced(|c.vectors[c.idx]| - c.off, n);
            && (if c.offset + n < |Flat(c.vectors)| then d.Inside() else d.AtEnd())
            && (d.AtEnd() <==> c.cnt == 1 && n == |c.vectors[c.idx]| - c.off)
  {
    var v := |c.vectors[c.idx]|;
    FlatAt(c.vectors, c.idx, c.off, v - c.off);
    if n == v - c.off {
      assert (c.cnt - 1) % U16 == c.cnt - 1;
      if c.cnt > 1 {
        NextVector(c);
      } else {
        assert c.vectors[..c.idx + 1] == c.vectors;
      }
    }
  }

  lemma {:induction false} NextVector(c: Cursor)
    requires c.Inside() && c.idx + 1 < |c.vectors|
    ensures |c.vectors[c.idx + 1]| > 0
    ensures |Flat(c.vectors[..c.idx + 1])| < |Flat(c.vectors)|
  {
    FlatAt(c.vectors, c.idx + 1, 0, |c.vectors[c.idx + 1]|);
  }

  /** The message as netconn_write_vectors_partly makes it: its len is no more than SSIZE_MAX. */
  function Start(vectors: seq<seq<byte>>): Cursor
    requires |vectors| <= 0xFFFF
  {
    Cursor(vectors, 0, 0, |vectors|, 0, Min(|Flat(vectors)|, SSIZE_MAX))
  }

  lemma {:induction false} StartInside(vectors: seq<seq<byte>>)
    requires Sized(vectors)
    ensures Start(vectors).Inside() && 0 < Start(vectors).len
  {
    FlatAt(vectors, 0, 0, |vectors[0]|);
    assert vectors[..0] == [];
  }

  // ---------- what lwip_netconn_do_writemore does ----------

  /** What one round finds: tcp_sndbuf, the result of tcp_write, and, once the cursor has left the array of
    * vectors, the length of what the code then takes for one. */
  datatype Choice = Choice(available: u16, write: Err, foreign: nat)

  datatype Round = Round(c: Cursor, r: Err, full: bool, more: bool)

  /** diff: what is left of the current vector. */
  function Diff(c: Cursor, ch: Choice): nat {
    if c.idx < |c.vectors| && c.off <= |c.vectors[c.idx]| then |c.vectors[c.idx]| - c.off else ch.foreign
  }

  function WriteResult(e: Err): Err {
    if e == OK || e == MEM then e else CONN
  }

  function Rounded(c: Cursor, dontBlock: bool, ch: Choice): Round {
    var diff := Diff(c, ch);
    var wanted := Min(diff, 0xFFFF);
    var len := Min(wanted, ch.available);
    if dontBlock && ch.available < wanted && len == 0 then
      Round(c, if c.offset == 0 then WOULDBLOCK else OK, true, false)
    else
      var r := WriteResult(ch.write);
      Round(if r == OK then c.Advanced(diff, len) else c, r, false,
            (len == 0xFFFF && diff > 0xFFFF) || (len == diff % U16 && c.cnt > 1))
  }

  /** The loop: rounds as long as there is more to write and tcp_write takes it. */
  function Rounds(c: Cursor, dontBlock: bool, chs: seq<Choice>): Round
    requires chs != []
    decreases |chs|
  {
    var a := Rounded(c, dontBlock, chs[0]);
    if a.more && a.r == OK && |chs| > 1 then Rounds(a.c, dontBlock, chs[1..]) else a
  }

  /** The loop takes exactly these rounds. */
  predicate Complete(c: Cursor, dontBlock: bool, chs: seq<Choice>)
    decreases |chs|
  {
    && chs != []
    && var a := Rounded(c, dontBlock, chs[0]);
       if a.more && a.r == OK then Complete(a.c, dontBlock, chs[1..]) else |chs| == 1
  }

  /** What becomes of the call when the loop has ended with r: its error, and whether it is finished. */
  function Concluded(c: Cursor, dontBlock: bool, r: Err, noRoute: bool): (Err, bool) {
    if r == OK then if noRoute then (RTE, true) else (OK, c.offset == c.len || dontBlock)
    else if r == MEM then
      if noRoute then (RTE, true) else if dontBlock then (if c.offset == 0 then WOULDBLOCK else OK, true)
          else (MEM, false)
    else (r, true)
  }

  // ---------- runs of a write ----------

  /** A write operation: its cursor, whether it is going on, its error and the count of signals. */
  datatype Op = Op(c: Cursor, writing: bool, err: Err, signals: nat)

  /** A call of lwip_netconn_do_writemore, from do_write or a callback, or err_tcp. */
  datatype Event = More(chs: seq<Choice>, noRoute: bool) | Failed(err: Err)

  /** The end of a call whose loop has ended with r. */
  function Settled(s: Op, dontBlock: bool, r: Err, noRoute: bool): Op {
    var (out, finished) := Concluded(s.c, dontBlock, r, noRoute);
    if finished then Op(s.c, false, out, s.signals + 1) else s
  }

  predicate Enabled(dontBlock: bool, s: Op, e: Event) {
    && s.writing
    && (e.More? ==> Complete(s.c, dontBlock, e.chs))
    && (e.Failed? ==> e.err == ABRT || e.err == CONN)
  }

  function Next(dontBlock: bool, s: Op, e: Event): Op
    requires Enabled(dontBlock, s, e)
  {
    match e
    case More(chs, noRoute) =>
      var a := Rounds(s.c, dontBlock, chs);
      Settled(s.(c := a.c), dontBlock, a.r, noRoute)
    case Failed(err) => Op(s.c, false, err, s.signals + 1)
  }

  ghost predicate Stepped(dontBlock: bool, s: Op, e: Event, t: Op) {
    Enabled(dontBlock, s, e) && t == Next(dontBlock, s, e)
  }

  lemma {:induction false} MoreIs(dontBlock: bool, s: Op, chs: seq<Choice>, noRoute: bool, c: Cursor, r: Err, t: Op)
    requires s.writing && Complete(s.c, dontBlock, chs)
    requires Rounds(s.c, dontBlock, chs).c == c && Rounds(s.c, dontBlock, chs).r == r
    requires t == Settled(s.(c := c), dontBlock, r, noRoute)
    ensures Stepped(dontBlock, s, More(chs, noRoute), t)
  {
  }

  ghost predicate Steps(dontBlock: bool, states: seq<Op>, events: seq<Event>) {
    && |states| == |events| + 1
    && forall k {:trigger events[k]} | 0 <= k < |events| ::
         Enabled(dontBlock, states[k], events[k]) && states[k + 1] == Next(dontBlock, states[k], events[k])
  }

  lemma {:induction false} StepsOn(dontBlock: bool, states: seq<Op>, events: seq<Event>, e: Event, t: Op)
    requires Steps(dontBlock, states, events) && Stepped(dontBlock, states[|events|], e, t)
    ensures Steps(dontBlock, states + [t], events + [e])
  {
  }

  /** A run of a blocking write. */
  ghost predicate Run(vectors: seq<seq<byte>>, states: seq<Op>, events: seq<Event>)
    requires |vectors| <= 0xFFFF
  {
    Steps(false, states, events) && states[0] == Op(Start(vectors), true, OK, 0)
  }

  /** A round of a cursor inside its vectors. */
  lemma {:induction false} RoundKeeps(c: Cursor, dontBlock: bool, ch: Choice)
    requires c.Inside()
    ensures var a := Rounded(c, dontBlock, ch);
            && (a.c.Inside() || a.c.AtEnd()) && a.c.vectors == c.vectors && a.c.len == c.len && a.c.offset >= c.offset
            && (a.more ==> c.cnt > 1) && (a.more && a.r == OK ==> a.c.Inside() && a.c.cnt < c.cnt)
            && (a.r == MEM ==> a.c.Inside())
  {
    var diff := Diff(c, ch);
    Advances(c, Min(diff, ch.available));
  }

  /** What holds when a loop has ended with r. */
  ghost predicate LoopEnd(c: Cursor, dontBlock: bool, r: Err) {
    && (r == OK && dontBlock ==> c.offset > 0)
    && (r == WOULDBLOCK ==> dontBlock && c.offset == 0)
    && (r == OK || r == MEM || r == CONN || r == WOULDBLOCK)
    && (r == MEM ==> c.Inside())
  }

  lemma {:induction false} RoundsEnd(c: Cursor, dontBlock: bool, chs: seq<Choice>)
    requires c.Inside() && Complete(c, dontBlock, chs)
    ensures var a := Rounds(c, dontBlock, chs);
            && (a.c.Inside() || a.c.AtEnd()) && a.c.vectors == c.vectors && a.c.len == c.len
               && LoopEnd(a.c, dontBlock, a.r)
    decreases |chs|
  {
    RoundKeeps(c, dontBlock, chs[0]);
    var a := Rounded(c, dontBlock, chs[0]);
    if a.more && a.r == OK {
      RoundsEnd(a.c, dontBlock, chs[1..]);
    }
  }

  /** A blocking write whose vectors keep to the limit is inside them as long as it goes on. */
  lemma {:induction false} WithinLimit(vectors: seq<seq<byte>>, states: seq<Op>, events: seq<Event>, k: nat)
    requires Sized(vectors) && |Flat(vectors)| <= SSIZE_MAX && Run(vectors, states, events) && k <= |events|
    ensures var s := states[k]; s.writing ==> s.c.Inside() && s.c.vectors == vectors && s.c.len == |Flat(vectors)|
  {
    if k == 0 {
      StartInside(vectors);
    } else {
      WithinLimit(vectors, states, events, k - 1);
      assert Enabled(false, states[k - 1], events[k - 1]) && states[k] == Next(false, states[k - 1], events[k - 1]);
      if events[k - 1].More? {
        RoundsEnd(states[k - 1].c, false, events[k - 1].chs);
      }
    }
  }

  // ---------- when a write ends, and with what ----------

  /** An error of tcp_write other than ERR_MEM. */
  predicate Hard(ch: Choice) {
    ch.write != OK && ch.write != MEM
  }

  /** Where round h of a loop that starts at c takes its bytes from, and how many its vector has left. */
  ghost function Before(c: Cursor, h: nat): nat
    requires c.idx + h < |c.vectors|
  {
    |Flat(c.vectors[..c.idx + h])| + if h == 0 then c.off else 0
  }

  ghost function Rest(c: Cursor, h: nat): int
    requires c.idx + h < |c.vectors|
  {
    |c.vectors[c.idx + h]| - if h == 0 then c.off else 0
  }

  /** The loop writes one vector a round: all rounds but the last write what is left of their vector, and the
    * loop stops at the first error, at the first lack of room, or behind the last vector. The last round writes
    * as much as there is room for, or nothing. */
  ghost predicate LoopWrites(c: Cursor, dontBlock: bool, chs: seq<Choice>, a: Round)
    requires chs != [] && c.idx + |chs| <= |c.vectors|
  {
    var n, last := |chs| - 1, chs[|chs| - 1];
    var full := dontBlock && last.available == 0;
    var taken := last.write == OK && !full;
    && (forall h {:trigger chs[h]} | 0 <= h < n :: chs[h].write == OK && Rest(c, h) <= chs[h].available)
    && (n + 1 < c.cnt ==> !taken || last.available < Rest(c, n))
    && a.c.offset == Before(c, n) + (if taken then Min(Rest(c, n), last.available) else 0)
    && a.full == full
    && a.r == if full then if a.c.offset == 0 then WOULDBLOCK else OK else if Hard(last) then CONN else last.write
  }

  lemma {:induction false} RoundGoesOn(c: Cursor, dontBlock: bool, ch: Choice)
    requires c.Inside() && Rounded(c, dontBlock, ch).more && Rounded(c, dontBlock, ch).r == OK
    ensures var d := Rounded(c, dontBlock, ch).c;
            ch.write == OK && Rest(c, 0) <= ch.available && d.idx == c.idx + 1 && d.off == 0 && d.cnt == c.cnt - 1
  {
  }

  lemma {:induction false} RoundStops(c: Cursor, dontBlock: bool, ch: Choice)
    requires c.Inside() && !(Rounded(c, dontBlock, ch).more && Rounded(c, dontBlock, ch).r == OK)
    ensures LoopWrites(c, dontBlock, [ch], Rounded(c, dontBlock, ch))
  {
  }

  lemma {:induction false} LoopIs(c: Cursor, dontBlock: bool, chs: seq<Choice>)
    requires c.Inside() && Complete(c, dontBlock, chs)
    ensures 0 < |chs| <= c.cnt && LoopWrites(c, dontBlock, chs, Rounds(c, dontBlock, chs))
    decreases |chs|
  {
    var a := Rounded(c, dontBlock, chs[0]);
    if a.more && a.r == OK {
      RoundKeeps(c, dontBlock, chs[0]);
      RoundGoesOn(c, dontBlock, chs[0]);
      LoopIs(a.c, dontBlock, chs[1..]);
      LoopShift(c, a.c, dontBlock, chs, Rounds(c, dontBlock, chs));
    } else {
      RoundStops(c, dontBlock, chs[0]);
      assert chs == [chs[0]];
    }
  }

  lemma {:induction false} SoftEnd(c: Cursor, chs: seq<Choice>)
    requires c.Inside() && Complete(c, true, chs)
    ensures var a := Rounds(c, true, chs);
            chs != [] && (a.r == OK || a.r == MEM || a.full <==> chs[|chs| - 1].available == 0 || !Hard(chs[|chs| - 1]))
  {
    LoopIs(c, true, chs);
  }

  lemma {:induction false} LoopShift(c: Cursor, d: Cursor, dontBlock: bool, chs: seq<Choice>, a: Round)
    requires |chs| > 1 && c.idx + |chs| <= |c.vectors| && d.vectors == c.vectors && d.idx == c.idx + 1 && d.off == 0
    requires d.cnt == c.cnt - 1 && chs[0].write == OK && Rest(c, 0) <= chs[0].available
    requires LoopWrites(d, dontBlock, chs[1..], a)
    ensures LoopWrites(c, dontBlock, chs, a)
  {
    var rest := chs[1..];
    forall h | 0 <= h < |rest| ensures Rest(c, h + 1) == Rest(d, h) && Before(c, h + 1) == Before(d, h) {
      assert c.idx + (h + 1) == d.idx + h;
    }
    forall h {:trigger chs[h]} | 0 <= h < |chs| - 1 ensures chs[h].write == OK && Rest(c, h) <= chs[h].available {
      if h > 0 { assert chs[h] == rest[h - 1] && Rest(c, (h - 1) + 1) == Rest(d, h - 1); }
    }
    assert Rest(c, (|rest| - 1) + 1) == Rest(d, |rest| - 1) && chs[|chs| - 1] == rest[|rest| - 1];
  }

  /** Why a blocking write ends: its pcb is gone, there is no route, tcp_write fails for good, or, tcp_write
    * having accepted all that it was offered, everything is written. */
  predicate Stops(e: Event, t: Op) {
    match e
    case Failed(err) => true
    case More(chs, noRoute) =>
      noRoute || (chs != [] && (Hard(chs[|chs| - 1]) || (chs[|chs| - 1].write == OK && t.c.offset == t.c.len)))
  }

  /** A blocking write has ended if and only if one of the steps so far gave a reason; it is then the last one,
    * and its reason is the error that the application is given, by one signal. */
  lemma {:induction false} EndsOnlyIf(states: seq<Op>, events: seq<Event>, k: nat)
    requires Steps(false, states, events) && states[0].writing && k <= |events|
    ensures states[k].writing <==> forall m {:trigger events[m]} | 0 <= m < k :: !Stops(events[m], states[m + 1])
    ensures states[k].writing ==> states[k].signals == states[0].signals && states[k].err == states[0].err
    ensures !states[k].writing ==>
              && k == |events| && states[k].signals == states[0].signals + 1
              && states[k].err == match events[k - 1]
                                  case Failed(err) => err
                                  case More(chs, noRoute) =>
                                    if chs != [] && Hard(chs[|chs| - 1]) then CONN else if noRoute then RTE else OK
  {
    if k > 0 {
      EndsOnlyIf(states, events, k - 1);
      assert Enabled(false, states[k - 1], events[k - 1]) && states[k] == Next(false, states[k - 1], events[k - 1]);
      if k < |events| {
        assert Enabled(false, states[k], events[k]);
      }
      if events[k - 1].More? {
        LastRound(states[k - 1].c, events[k - 1].chs);
      }
    }
  }

  lemma {:induction false} LastRound(c: Cursor, chs: seq<Choice>)
    requires Complete(c, false, chs)
    ensures chs != [] && Rounds(c, false, chs).r == if Hard(chs[|chs| - 1]) then CONN else chs[|chs| - 1].write
    decreases |chs|
  {
    var a := Rounded(c, false, chs[0]);
    if a.more && a.r == OK {
      LastRound(a.c, chs[1..]);
    }
  }

  /** Within the limit it has ended if and only if all is written, or its pcb was lost, or there was no route, or
    * tcp_write has failed for good: it waits through every lack of memory. */
  lemma {:induction false} WaitsThroughMem(vectors: seq<seq<byte>>, states: seq<Op>, events: seq<Event>, k: nat)
    requires Sized(vectors) && |Flat(vectors)| <= SSIZE_MAX && Run(vectors, states, events) && k <= |events|
    ensures states[k].writing <==>
              && states[k].c.offset != |Flat(vectors)|
              && forall m {:trigger events[m]} | 0 <= m < k ::
                   && events[m].More? && !events[m].noRoute
                   && forall h | 0 <= h < |events[m].chs| :: !Hard(events[m].chs[h])
  {
    EndsOnlyIf(states, events, k);
    WithinLimit(vectors, states, events, k);
    forall m {:trigger events[m]} | 0 <= m < k && events[m].More? ensures Enabled(false, states[m], events[m])
      ensures forall h | 0 <= h < |events[m].chs| - 1 :: !Hard(events[m].chs[h])
      ensures events[m].chs != []
    {
      EndsOnlyIf(states, events, m);
      WithinLimit(vectors, states, events, m);
      assert Enabled(false, states[m], events[m]);
      LoopIs(states[m].c, false, events[m].chs);
    }
    if k > 0 {
      EndsOnlyIf(states, events, k - 1);
      WithinLimit(vectors, states, events, k - 1);
      assert states[k] == Next(false, states[k - 1], events[k - 1]);
      if events[k - 1].More? {
        RoundsEnd(states[k - 1].c, false, events[k - 1].chs);
      }
    } else {
      StartInside(vectors);
    }
  }

  /** A write that does not block always ends at once: with ERR_WOULDBLOCK exactly if nothing was written for
    * lack of room or memory, with ERR_OK if something was, unless there is no route or tcp_write failed for
    * good. */
  lemma {:induction false} NonBlockingEnds(s: Op, chs: seq<Choice>, noRoute: bool, t: Op)
    requires s.c.Inside() && Stepped(true, s, More(chs, noRoute), t)
    ensures !t.writing && t.signals == s.signals + 1 && chs != []
    ensures var last := chs[|chs| - 1];
            t.err == if last.available > 0 && Hard(last) then CONN
                     else if last.available == 0 && t.c.offset == 0 then WOULDBLOCK
                     else if noRoute then RTE
                     else if t.c.offset == 0 then WOULDBLOCK
                     else OK
  {
    LoopIs(s.c, true, chs);
    RoundsEnd(s.c, true, chs);
  }

  // ---------- vectors beyond the limit ----------

  /** The write has handed out all vectors, has gone past its len, and still waits. */
  ghost predicate Overrun(s: Op) {
    s.writing && s.signals == 0 && s.c.cnt == 0 && s.c.offset > s.c.len
  }

  /** Plenty of room: every round writes a whole vector. */
  const PLENTY: Choice := Choice(0xFFFF, OK, 0)

  function Plenty(n: nat): seq<Choice> {
    if n == 0 then [] else [PLENTY] + Plenty(n - 1)
  }

  lemma {:induction false} AllAtOnce(c: Cursor)
    requires c.Inside() && c.off == 0
    ensures Complete(c, false, Plenty(c.cnt)) && |Plenty(c.cnt)| > 0
    ensures var a := Rounds(c, false, Plenty(c.cnt));
            a.c.AtEnd() && a.r == OK && a.c.vectors == c.vectors && a.c.len == c.len
    decreases c.cnt
  {
    var n := |c.vectors[c.idx]|;
    var a := Rounded(c, false, PLENTY);
    assert a.c == c.Advanced(n, n) && a.r == OK && (a.more <==> c.cnt > 1);
    Advances(c, n);
    assert Plenty(c.cnt)[1..] == Plenty(c.cnt - 1);
    if c.cnt > 1 {
      AllAtOnce(a.c);
    }
  }

  /** A blocking write can go past its end, all vectors handed out and its semaphore not signalled, if and
    * only if the vectors exceed the limit that len is cut to: only len is cut, not the vectors. */
  lemma {:induction false} OverrunIff(vectors: seq<seq<byte>>)
    requires Sized(vectors)
    ensures (exists states, events :: Run(vectors, states, events) && Overrun(states[|events|])) <==>
        |Flat(vectors)| > SSIZE_MAX
  {
    if |Flat(vectors)| > SSIZE_MAX {
      var states, events := Overruns(vectors);
    } else {
      forall states, events | Run(vectors, states, events) ensures !Overrun(states[|events|]) {
        WithinLimit(vectors, states, events, |events|);
      }
    }
  }

  lemma {:induction false} Overruns(vectors: seq<seq<byte>>) returns (states: seq<Op>, events: seq<Event>)
    requires Sized(vectors) && |Flat(vectors)| > SSIZE_MAX
    ensures Run(vectors, states, events) && Overrun(states[|events|])
  {
    StartInside(vectors);
    var s, e := Op(Start(vectors), true, OK, 0), More(Plenty(|vectors|), false);
    AllAtOnce(s.c);
    states, events := [s, Next(false, s, e)], [e];
  }

  /** A write past its end stays there: it never ends with ERR_OK, whatever the code takes for vectors. */
  lemma {:induction false} OverrunLasts(states: seq<Op>, events: seq<Event>, k: nat)
    requires Steps(false, states, events) && states[0].writing && states[0].c.offset > states[0].c.len && k <= |events|
    ensures var s := states[k];
            if s.writing then s.c.offset > s.c.len && s.signals == states[0].signals else s.err != OK
  {
    if k > 0 {
      OverrunLasts(states, events, k - 1);
      assert Enabled(false, states[k - 1], events[k - 1]) && states[k] == Next(false, states[k - 1], events[k - 1]);
      if events[k - 1].More? {
        RoundsGrow(states[k - 1].c, events[k - 1].chs);
      }
    }
  }

  lemma {:induction false} RoundsGrow(c: Cursor, chs: seq<Choice>)
    requires Complete(c, false, chs)
    ensures var a := Rounds(c, false, chs); a.c.offset >= c.offset && a.c.len == c.len
    decreases |chs|
  {
    var a := Rounded(c, false, chs[0]);
    if a.more && a.r == OK {
      RoundsGrow(a.c, chs[1..]);
    }
  }

  function Copies(v: seq<byte>, n: nat): seq<seq<byte>> {
    if n == 0 then [] else Copies(v, n - 1) + [v]
  }

  lemma {:induction false} CopiesFlat(v: seq<byte>, n: nat)
    requires |v| == 0xFFFF
    ensures |Copies(v, n)| == n && |Flat(Copies(v, n))| == 0xFFFF * n
    ensures forall x | x in Copies(v, n) :: x == v
  {
    if n > 0 {
      CopiesFlat(v, n - 1);
      assert Copies(v, n)[..n - 1] == Copies(v, n - 1);
    }
  }

  /** Such vectors: 32769 times 0xFFFF bytes, which may all be the same ones. */
  lemma {:induction false} LimitOverrun() returns (vectors: seq<seq<byte>>, states: seq<Op>, events: seq<Event>)
    ensures Sized(vectors) && |vectors| == 32769 && |Flat(vectors)| == 0xFFFF * 32769 > SSIZE_MAX
    ensures Run(vectors, states, events) && Overrun(states[|events|])
  {
    var v: seq<byte> := seq(0xFFFF, _ => 0);
    CopiesFlat(v, 32769);
    vectors := Copies(v, 32769);
    forall i | 0 <= i < |vectors| ensures |vectors[i]| == 0xFFFF {
      assert vectors[i] in vectors;
    }
    states, events := Overruns(vectors);
  }

  // ---------- the rounds of a loop in progress ----------

  /** The rounds chs have led from c0 to c, and the loop goes on. */
  ghost predicate Underway(c0: Cursor, dontBlock: bool, chs: seq<Choice>, c: Cursor)
    decreases |chs|
  {
    if chs == [] then c == c0
    else
      var a := Rounded(c0, dontBlock, chs[0]);
      a.more && a.r == OK && Underway(a.c, dontBlock, chs[1..], c)
  }

  lemma {:induction false} UnderwayMore(c0: Cursor, dontBlock: bool, chs: seq<Choice>, c: Cursor, ch: Choice)
    requires Underway(c0, dontBlock, chs, c)
    ensures var a := Rounded(c, dontBlock, ch);
            if a.more && a.r == OK then Underway(c0, dontBlock, chs + [ch], a.c)
            else Complete(c0, dontBlock, chs + [ch]) && Rounds(c0, dontBlock, chs + [ch]) == a
    decreases |chs|
  {
    if chs != [] {
      assert (chs + [ch])[1..] == chs[1..] + [ch];
      UnderwayMore(Rounded(c0, dontBlock, chs[0]).c, dontBlock, chs[1..], c, ch);
    }
  }

  class Netconn {
    var state: ConnState
    var nonblocking: bool
    /** Whether there still is a pcb. */
    var pcb: bool
    var pendingErr: Err
    /** NETCONN_FLAG_CHECK_WRITESPACE. */
    var checkWritespace: bool
    /** Whether current_msg is set; the message of the call, its NETCONN_DONTBLOCK and its err. */
    var current: bool
    var msg: Cursor
    var dontBlockFlag: bool
    var err: Err
    /** Whether a call is under way, the bytes tcp_write has accepted for it, and how often its semaphore
      * has been signalled. */
    ghost var calling: bool
    ghost var accepted: seq<byte>
    ghost var signals: nat

    constructor (nonblocking: bool, listening: bool)
      ensures Valid() && !calling && state == if listening then LISTEN else NONE
    {
      state := if listening then LISTEN else NONE;
      this.nonblocking, pcb, pendingErr, checkWritespace := nonblocking, true, OK, false;
      current, msg, dontBlockFlag, err := false, Cursor([], 0, 0, 0, 0, 0), false, OK;
      calling, accepted, signals := false, [], 0;
    }

    predicate DontBlock()
      reads this
    {
      nonblocking || dontBlockFlag
    }

    ghost function TheOp(): Op
      reads this
    {
      Op(msg, state == WRITE, err, signals)
    }

    /** What tcp_write has accepted are the first offset bytes of the vectors. */
    ghost predicate Faithful()
      reads this
    {
      calling ==> msg.offset <= |Flat(msg.vectors)| && accepted == Flat(msg.vectors)[..msg.offset]
    }

    ghost predicate PendingOk()
      reads this
    {
      pendingErr == OK || pendingErr == ABRT || pendingErr == CONN
    }

    /** A call is going on as long as its semaphore has not been signalled. */
    ghost predicate Valid()
      reads this
    {
      && Faithful() && PendingOk()
      && (state == WRITE <==> current) && (state == WRITE ==> calling)
      && (calling ==> signals == if state == WRITE then 0 else 1)
      && (calling ==> msg.len == Min(|Flat(msg.vectors)|, SSIZE_MAX))
      && (state == WRITE ==> pcb && !DontBlock() && (msg.Inside() || (msg.AtEnd() && msg.offset > msg.len)))
      && (calling && state != WRITE ==> Ended())
    }

    /** How a call may end: OK means len bytes for a blocking write and at least one for others. */
    ghost predicate Ended()
      reads this
    {
      && (err == OK && !DontBlock() ==> msg.offset == msg.len)
      && (err == OK && DontBlock() ==> msg.offset > 0)
      && (err == WOULDBLOCK ==> DontBlock() && msg.offset == 0)
      && err != MEM
    }

    /** tcp_sndbuf. */
    method TcpSndbuf() returns (r: u16)
    {
      r := *;
    }

    /** tcp_write takes all of the data, or fails; errors other than ERR_MEM are all alike here. */
    method TcpWrite(data: seq<byte>) returns (r: Err)
      modifies this`accepted
      ensures r == OK || r == MEM || r == CONN
      ensures accepted == if r == OK then old(accepted) + data else old(accepted)
    {
      var taken: bool, full: bool := *, *;
      if taken {
        accepted := accepted + data;
        return OK;
      }
      r := if full then MEM else CONN;
    }

    /** Whether tcp_output fails with ERR_RTE. */
    method TcpOutput() returns (noRoute: bool)
    {
      noRoute := *;
    }

    /** One round of the loop of lwip_netconn_do_writemore, for some room and some result of tcp_write. */
    method WriteOne(dontBlock: bool) returns (r: Err, full: bool, writeMore: bool, ghost ch: Choice)
      requires calling && Faithful() && msg.Inside()
      modifies this`msg, this`accepted
      ensures Faithful() && Rounded(old(msg), dontBlock, ch) == Round(msg, r, full, writeMore)
    {
      var diff: nat := |msg.vectors[msg.idx]| - msg.off;
      var len := diff;
      var available := TcpSndbuf();
      ch := Choice(available, OK, 0);
      if available < len {
        len := available;
        if dontBlock && len == 0 {
          return if msg.offset == 0 then WOULDBLOCK else OK, true, false, ch;
        }
      }
      writeMore := len == diff && msg.cnt > 1;
      full := false;
      r := Offer(len);
      ch := Choice(available, r, 0);
    }

    /** tcp_write of the next len bytes of the current vector. */
    method Offer(len: nat) returns (r: Err)
      requires calling && Faithful() && msg.Inside() && msg.off + len <= |msg.vectors[msg.idx]|
      modifies this`msg, this`accepted
      ensures Faithful() && (r == OK || r == MEM || r == CONN)
      ensures msg == if r == OK then old(msg).Advanced(|old(msg).vectors[old(msg).idx]| - old(msg).off, len)
          else old(msg)
    {
      ghost var c, chunk := msg, msg.vectors[msg.idx][msg.off..msg.off + len];
      assert c.offset + len <= |Flat(c.vectors)| && Flat(c.vectors)[..c.offset] + chunk ==
          Flat(c.vectors)[..c.offset + len] by {
        Advances(c, len);
      }
      r := TcpWrite(msg.vectors[msg.idx][msg.off..msg.off + len]);
      if r == OK {
        Advance(len);
      }
    }

    /** The message's fields after tcp_write has taken n bytes. */
    method Advance(n: nat)
      requires msg.idx < |msg.vectors| && msg.off + n <= |msg.vectors[msg.idx]| && msg.cnt > 0
      modifies this`msg
      ensures msg == old(msg).Advanced(|old(msg).vectors[old(msg).idx]| - old(msg).off, n)
    {
      msg := msg.(offset := msg.offset + n);
      msg := msg.(off := msg.off + n);
      if msg.off == |msg.vectors[msg.idx]| {
        msg := msg.(cnt := msg.cnt - 1);
        if msg.cnt > 0 {
          msg := msg.(idx := msg.idx + 1);
          msg := msg.(off := 0);
        }
      }
    }

    /** The loop: r and full tell how it ends, full that a non-blocking write has found no room. */
    method WriteVectors(dontBlock: bool) returns (r: Err, full: bool, ghost chs: seq<Choice>)
      requires calling && Faithful() && msg.Inside()
      modifies this`msg, this`accepted
      ensures Faithful() && Complete(old(msg), dontBlock, chs)
      ensures var a := Rounds(old(msg), dontBlock, chs); a.c == msg && a.r == r && a.full == full
      ensures (msg.Inside() || msg.AtEnd()) && msg.vectors == old(msg.vectors) && msg.len == old(msg.len)
          && LoopEnd(msg, dontBlock, r)
    {
      chs := [];
      while true
        invariant Faithful() && msg.Inside() && Underway(old(msg), dontBlock, chs, msg)
        decreases msg.cnt
      {
        ghost var c := msg;
        var writeMore;
        ghost var ch;
        r, full, writeMore, ch := WriteOne(dontBlock);
        UnderwayMore(old(msg), dontBlock, chs, c, ch);
        RoundKeeps(c, dontBlock, ch);
        chs := chs + [ch];
        if !(writeMore && r == OK) {
          RoundsEnd(old(msg), dontBlock, chs);
          return;
        }
      }
    }

    /** lwip_netconn_do_writemore is at work on the current message. */
    ghost predicate Working()
      reads this
    {
      && calling && Faithful() && PendingOk() && state == WRITE && current && pcb && signals == 0
      && msg.len == Min(|Flat(msg.vectors)|, SSIZE_MAX)
    }

    /** Its first half: the loop, and what a non-blocking write leaves to poll_tcp. */
    method WriteLoop() returns (r: Err, ghost chs: seq<Choice>)
      requires Working() && msg.Inside()
      modifies this`msg, this`accepted, this`checkWritespace
      ensures Working() && (msg.Inside() || msg.AtEnd()) && msg.vectors == old(msg.vectors)
          && LoopEnd(msg, DontBlock(), r)
      ensures Complete(old(msg), DontBlock(), chs)
      ensures Rounds(old(msg), DontBlock(), chs).c == msg && Rounds(old(msg), DontBlock(), chs).r == r
      ensures checkWritespace == (old(checkWritespace) || LeavesRest(chs))
    {
      var full;
      r, full, chs := WriteVectors(DontBlock());
      if DontBlock() {
        SoftEnd(old(msg), chs);
      }
      MarkUnwritable(r, full);
    }

    /** A non-blocking write has not written everything, and not because tcp_write failed for good. */
    ghost predicate LeavesRest(chs: seq<Choice>)
      reads this
    {
      DontBlock() && msg.offset < msg.len && chs != [] && (chs[|chs| - 1].available == 0 || !Hard(chs[|chs| - 1]))
    }

    /** lwip_netconn_do_writemore, while there are vectors left as it asserts: one step of the operation. */
    method WriteMore() returns (ghost e: Event)
      requires Working() && msg.Inside()
      modifies this`msg, this`accepted, this`checkWritespace, this`state, this`current, this`err, this`signals
      ensures Valid() && msg.vectors == old(msg.vectors) && (DontBlock() ==> state == NONE)
      ensures Stepped(DontBlock(), old(TheOp()), e, TheOp())
      ensures state == WRITE || state == NONE
      ensures e.More? && checkWritespace == (old(checkWritespace) || LeavesRest(e.chs))
    {
      ghost var s := TheOp();
      var r;
      ghost var chs;
      r, chs := WriteLoop();
      ghost var c := msg;
      ghost var noRoute := Conclude(r);
      e := More(chs, noRoute);
      MoreIs(DontBlock(), s, chs, noRoute, c, r, TheOp());
    }

    /** A non-blocking write that did not write everything lets poll_tcp look for room. */
    method MarkUnwritable(r: Err, full: bool)
      modifies this`checkWritespace
      ensures checkWritespace == (old(checkWritespace)
          || ((r == OK || r == MEM || full) && DontBlock() && msg.offset < msg.len))
    {
      if (r == OK || r == MEM || full) && DontBlock() && msg.offset < msg.len {
        checkWritespace := true;
      }
    }

    /** What lwip_netconn_do_writemore does when its loop has ended with r. */
    method Conclude(r: Err) returns (ghost noRoute: bool)
      requires Working() && (msg.Inside() || msg.AtEnd())
      requires LoopEnd(msg, DontBlock(), r)
      modifies this`state, this`current, this`err, this`signals
      ensures Valid() && (state == WRITE || state == NONE) && (DontBlock() ==> state == NONE)
      ensures TheOp() == Settled(old(TheOp()), DontBlock(), r, noRoute)
    {
      var out, writeFinished := r, false;
      var failed := TcpOutput();
      noRoute := failed;
      if r == OK {
        if msg.offset == msg.len || DontBlock() {
          writeFinished := true;
        }
        if failed {
          out, writeFinished := RTE, true;
        }
      } else if r == MEM {
        if failed {
          out, writeFinished := RTE, true;
        } else if DontBlock() {
          out, writeFinished := if msg.offset == 0 then WOULDBLOCK else OK, true;
        }
      } else {
        writeFinished := true;
      }
      if writeFinished {
        err := out;
        current, state := false, NONE;
        signals := signals + 1;
      }
    }

    /** The size check of netconn_write_vectors_partly: the sum of the lengths, unless a size_t overflows. */
    method TotalSize(vectors: seq<seq<byte>>) returns (ok: bool, size: u32)
      requires forall i {:trigger vectors[i]} | 0 <= i < |vectors| :: |vectors[i]| < U32
      ensures ok <==> |Flat(vectors)| < U32
      ensures ok ==> size == |Flat(vectors)|
    {
      var sum := 0;
      var i := 0;
      while i < |vectors|
        invariant 0 <= i <= |vectors| && sum == |Flat(vectors[..i])| < U32
      {
        FlatAt(vectors, i, 0, |vectors[i]|);
        FlatPrefix(vectors, i + 1);
        sum := (sum + |vectors[i]|) % U32;
        if sum < |vectors[i]| {
          return false, 0;
        }
        i := i + 1;
      }
      assert vectors[..i] == vectors;
      return true, sum;
    }

    /** A call puts together its message, in netconn_write_vectors_partly. */
    method NewMessage(vectors: seq<seq<byte>>, dontBlock: bool)
      requires Valid() && !calling && Sized(vectors)
      modifies this`calling, this`accepted, this`signals, this`msg, this`dontBlockFlag
      ensures calling && signals == 0 && Faithful() && msg == Start(vectors) && dontBlockFlag == dontBlock
    {
      calling, accepted, signals := true, [], 0;
      msg, dontBlockFlag := Start(vectors), dontBlock;
    }

    /** What lwip_netconn_do_write refuses a call with: an error that is pending, a connection that is busy or
      * has none. */
    predicate Refuses()
      reads this
    {
      pendingErr != OK || state != NONE || !pcb
    }

    /** lwip_netconn_do_write. A call that does not block has ended when it returns; a call that fails at once
      * has its semaphore signalled just like one that ends later. */
    method DoWrite() returns (ghost e: Event)
      requires calling && signals == 0 && Faithful() && msg.Inside() && msg.len == Min(|Flat(msg.vectors)|, SSIZE_MAX)
      requires state != WRITE && !current && PendingOk()
      modifies this`msg, this`accepted, this`checkWritespace, this`state, this`current, this`err, this`signals,
          this`pendingErr
      ensures Valid() && msg.vectors == old(msg.vectors) && pendingErr == OK
      ensures DontBlock() ==> signals == 1
      ensures old(Refuses()) ==>
                && signals == 1 && msg == old(msg) && accepted == old(accepted) && state == old(state)
                && checkWritespace == old(checkWritespace)
                && err == if old(pendingErr) != OK then old(pendingErr) else if state != NONE then INPROGRESS else CONN
      ensures !old(Refuses()) ==> e.More? && Stepped(DontBlock(), old(TheOp()).(writing := true), e, TheOp())
    {
      e := Failed(CONN);
      var r := pendingErr;
      pendingErr := OK;
      if r == OK {
        if state != NONE {
          r := INPROGRESS;
        } else if pcb {
          state, current := WRITE, true;
          e := WriteMore();
          return;
        } else {
          r := CONN;
        }
      }
      err := r;
      signals := signals + 1;
    }

    /** The write-space check at the end of sent_tcp and poll_tcp. */
    method CheckSpace()
      modifies this`checkWritespace
      ensures checkWritespace ==> old(checkWritespace)
      ensures !pcb ==> checkWritespace == old(checkWritespace)
    {
      var space: bool := *;
      if pcb && space {
        checkWritespace := false;
      }
    }

    /** sent_tcp: a write that is going on takes a step, as long as there are vectors left. */
    method SentTcp() returns (ghost e: Event)
      requires Valid() && pcb && (state == WRITE ==> msg.cnt > 0)
      modifies this`msg, this`accepted, this`checkWritespace, this`state, this`current, this`err, this`signals
      ensures Valid() && msg.vectors == old(msg.vectors)
      ensures if old(state) == WRITE then Stepped(false, old(TheOp()), e, TheOp())
              else TheOp() == old(TheOp()) && state == old(state) && accepted == old(accepted)
      ensures checkWritespace && !old(checkWritespace) ==> old(state) == WRITE && e.More? && LeavesRest(e.chs)
    {
      e := Failed(ABRT);
      if state == WRITE {
        e := WriteMore();
      }
      CheckSpace();
    }

    /** poll_tcp. */
    method PollTcp() returns (ghost e: Event)
      requires Valid() && pcb && (state == WRITE ==> msg.cnt > 0)
      modifies this`msg, this`accepted, this`checkWritespace, this`state, this`current, this`err, this`signals
      ensures Valid() && msg.vectors == old(msg.vectors)
      ensures if old(state) == WRITE then Stepped(false, old(TheOp()), e, TheOp())
              else TheOp() == old(TheOp()) && state == old(state) && accepted == old(accepted)
      ensures checkWritespace && !old(checkWritespace) ==> old(state) == WRITE && e.More? && LeavesRest(e.chs)
    {
      e := Failed(ABRT);
      if state == WRITE {
        e := WriteMore();
      }
      if checkWritespace {
        CheckSpace();
      }
    }

    /** err_tcp: the pcb is gone, and a write under way fails with the error. */
    method ErrTcp(e: Err)
      requires Valid() && pcb && (e == ABRT || e == CONN)
      modifies this`pcb, this`pendingErr, this`state, this`current, this`err, this`signals
      ensures Valid() && !pcb && state == NONE && pendingErr == e
      ensures if old(state) == WRITE then Stepped(false, old(TheOp()), Failed(e), TheOp())
              else TheOp() == old(TheOp())
    {
      pcb, pendingErr := false, e;
      var oldState := state;
      state := NONE;
      if oldState == WRITE {
        assert current;
        err, current := e, false;
        signals := signals + 1;
      } else {
        assert !current;
      }
    }

    /** Any sequence of callbacks after a call of do_write, as long as there are vectors left: what tcp_write
      * has accepted is always the first offset bytes of the vectors, and a call that is not refused takes the
      * steps of the machine from its start. So the semaphore is signalled at most once and exactly when the
      * operation has ended, and a blocking write that has ended with ERR_OK has written len bytes, which is
      * everything within the limit. */
    method WriteRun(vectors: seq<seq<byte>>, dontBlock: bool, callbacks: seq<Callback>)
      returns (ghost ended: bool, ghost states: seq<Op>, ghost events: seq<Event>)
      requires Valid() && !calling && Sized(vectors)
      modifies this
      ensures msg.offset <= |Flat(vectors)| && accepted == Flat(vectors)[..msg.offset]
      ensures signals == (if ended then 1 else 0) && (ended <==> !current)
      ensures ended && err == OK && !nonblocking && !dontBlock ==> |accepted| == Min(|Flat(vectors)|, SSIZE_MAX)
      ensures ended && err == OK ==> accepted != []
      ensures nonblocking || dontBlock ==> ended
      ensures nonblocking == old(nonblocking)
      ensures if old(Refuses()) then accepted == [] && ended && err == old(RefusedWith())
              else && Steps(nonblocking || dontBlock, states, events)
                   && states[0] == Op(Start(vectors), true, old(err), 0)
                   && states[|events|] == Op(msg, !ended, err, signals)
    {
      states, events := Begin(vectors, dontBlock);
      for i := 0 to |callbacks|
        invariant Valid() && calling && msg.vectors == vectors && dontBlockFlag == dontBlock
            && nonblocking == old(nonblocking)
        invariant DontBlock() ==> signals == 1
        invariant if old(Refuses()) then msg.offset == 0 && state != WRITE && err == old(RefusedWith())
                  else Told(states, events) && states[0] == Op(Start(vectors), true, old(err), 0)
      {
        states, events := Follow(callbacks[i], states, events);
      }
      ended := !current;
    }

    /** One callback after these steps. */
    method Follow(c: Callback, ghost states: seq<Op>, ghost events: seq<Event>)
      returns (ghost states': seq<Op>, ghost events': seq<Event>)
      requires Valid() && calling
      modifies this`pcb, this`pendingErr, this`msg, this`accepted, this`checkWritespace, this`state, this`current,
          this`err, this`signals
      ensures Valid() && msg.vectors == old(msg.vectors)
      ensures old(signals) == 1 ==> signals == 1
      ensures old(state) != WRITE ==> TheOp() == old(TheOp())
      ensures old(Told(states, events)) ==> Told(states', events') && states'[0] == states[0]
    {
      ghost var db, told := DontBlock(), Told(states, events);
      states', events' := states, events;
      ghost var stepped, e := Happen(c);
      if stepped {
        states', events' := states + [TheOp()], events + [e];
        if told { StepsOn(db, states, events, e, TheOp()); }
      }
    }

    /** The call itself, with its first step. */
    method Begin(vectors: seq<seq<byte>>, dontBlock: bool) returns (ghost states: seq<Op>, ghost events: seq<Event>)
      requires Valid() && !calling && Sized(vectors)
      modifies this
      ensures Valid() && calling && msg.vectors == vectors && dontBlockFlag == dontBlock
          && nonblocking == old(nonblocking)
      ensures DontBlock() ==> signals == 1
      ensures if old(Refuses()) then msg.offset == 0 && state != WRITE && err == old(RefusedWith())
              else Told(states, events) && states[0] == Op(Start(vectors), true, old(err), 0)
    {
      NewMessage(vectors, dontBlock);
      StartInside(vectors);
      ghost var s := TheOp().(writing := true);
      ghost var e := DoWrite();
      states, events := [s, TheOp()], [e];
    }

    /** These are the states and the steps of the operation so far. */
    ghost predicate Told(states: seq<Op>, events: seq<Event>)
      reads this
    {
      Steps(DontBlock(), states, events) && states[|events|] == TheOp()
    }

    ghost function RefusedWith(): Err
      reads this
    {
      if pendingErr != OK then pendingErr else if state != NONE then INPROGRESS else CONN
    }

    /** The stack calls back, if it still has the pcb: a write that is going on takes a step, and nothing else
      * changes its state. */
    method Happen(c: Callback) returns (ghost stepped: bool, ghost e: Event)
      requires Valid() && calling
      modifies this`pcb, this`pendingErr, this`msg, this`accepted, this`checkWritespace, this`state, this`current,
          this`err, this`signals
      ensures Valid() && msg.vectors == old(msg.vectors)
      ensures old(signals) == 1 ==> signals == 1
      ensures stepped ==> old(state) == WRITE && Stepped(DontBlock(), old(TheOp()), e, TheOp())
      ensures !stepped ==> TheOp() == old(TheOp())
    {
      stepped, e := false, Failed(ABRT);
      if !pcb || (state == WRITE && msg.cnt == 0) {
        return;
      }
      stepped := state == WRITE;
      match c
      case SentCallback => e := SentTcp();
      case PollCallback => e := PollTcp();
      case ErrCallback => ErrTcp(ABRT);
    }
  }

  datatype Callback = SentCallback | PollCallback | ErrCallback
}
