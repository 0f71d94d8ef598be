/** The wake-up protocol between lwip_select and event_callback in api/sockets.c, in its variant without
  * core locking: each step below is one protected section, any thread may take the next one. */
module Select {
  import opened Words

  type s16 = x: int | -0x8000 <= x < 0x8000

  datatype Kind = Rd | Wr | Ex

  /** rcvevent, sendevent, errevent, whether lastdata holds data, and select_waiting. */
  datatype Sock = Sock(rcv: s16, send: bool, err: bool, lastdata: bool, waiting: u8) {
    /** An event of this kind has been reported and not taken back. */
    predicate Ready(k: Kind) {
      match k case Rd => rcv > 0 case Wr => send case Ex => err
    }
  }

  datatype Evt = RCVPLUS | RCVMINUS | SENDPLUS | SENDMINUS | ERROR

  /** Where a thread is in lwip_select: not in it, or not yet linked; counting itself on the sockets below k;
    * having scanned those below k for the second time; waiting; uncounting those from k up to limit. */
  datatype Phase = Out | Joining(k: nat) | Scanning(k: nat) | Blocked | Leaving(k: nat, limit: nat)

  /** A call of lwip_select with its lwip_select_cb: the three sets, sem_signalled, the semaphore's count, and
    * whether the second scan has met a ready socket. */
  datatype Selector = Selector(phase: Phase, rd: set<nat>, wr: set<nat>, ex: set<nat>, signalled: bool, sem: nat,
                               nready: bool) {
    predicate Watches(i: nat, k: Kind) {
      match k case Rd => i in rd case Wr => i in wr case Ex => i in ex
    }

    predicate Sets(i: nat) {
      i in rd || i in wr || i in ex
    }

    /** It counts in the select_waiting of socket i. */
    predicate Holds(i: nat) {
      Sets(i) && match phase
                 case Out => false
                 case Joining(k) => i < k
                 case Scanning(k) => true
                 case Blocked => true
                 case Leaving(k, limit) => k <= i < limit
    }

    /** Its second scan has passed socket i. */
    predicate Scanned(i: nat) {
      phase == Blocked || (phase.Scanning? && i < phase.k)
    }

    predicate Sees(i: nat, s: Sock) {
      (i in rd && (s.lastdata || s.rcv > 0)) || (i in wr && s.send) || (i in ex && s.err)
    }
  }

  /** A call of select_check_waiters: its socket, the flags saved by event_callback, how many entries of the
    * list it has looked at, and last_select_cb_ctr. */
  datatype Walker = Walker(sock: nat, r: bool, w: bool, e: bool, pos: nat, last: nat, done: bool) {
    predicate Has(k: Kind) {
      match k case Rd => r case Wr => w case Ex => e
    }

    predicate Hits(x: Selector) {
      (r && sock in x.rd) || (w && sock in x.wr) || (e && sock in x.ex)
    }
  }

  /** list is select_cb_list, its head first; ctr is select_cb_ctr. */
  datatype State = State(socks: seq<Sock>, sels: seq<Selector>, list: seq<nat>, ctr: nat, walkers: seq<Walker>)

  datatype Event =
    | Occur(i: nat, evt: Evt)                                       // event_callback
    | Walk(w: nat)                                                  // one round of select_check_waiters
    | Link(j: nat, rd: set<nat>, wr: set<nat>, ex: set<nat>)        // lwip_link_select_cb
    | Count(j: nat)                                                 // select_waiting++
    | Scan(j: nat)                                                  // the second lwip_selscan, at one socket
    | Wake(j: nat)                                                  // sys_arch_sem_wait returns, signalled
    | Timeout(j: nat)                                               // sys_arch_sem_wait returns, timed out
    | Uncount(j: nat)                                               // select_waiting--
    | Unlink(j: nat)                                                // lwip_unlink_select_cb
    | Fill(i: nat)                                                  // a reader leaves data in lastdata
    | Drain(i: nat)                                                 // a reader takes it

  // ---------- the protected sections ----------

  /** rcvevent counts the buffers that wait; fewer than 2^15 of them ever do. */
  predicate NoOverflow(s: Sock, evt: Evt) {
    (evt == RCVPLUS ==> s.rcv < 0x7FFF) && (evt == RCVMINUS ==> s.rcv > -0x8000)
  }

  /** What an event does to its socket, and whether event_callback checks for waiters. */
  function Occurred(s: Sock, evt: Evt): (Sock, bool)
    requires NoOverflow(s, evt)
  {
    match evt
    case RCVPLUS => (s.(rcv := s.rcv + 1), s.rcv + 1 <= 1)
    case RCVMINUS => (s.(rcv := s.rcv - 1), false)
    case SENDPLUS => (s.(send := true), !s.send)
    case SENDMINUS => (s.(send := false), false)
    case ERROR => (s.(err := true), true)
  }

  function NewWalker(i: nat, s: Sock, ctr: nat): Walker {
    Walker(i, s.rcv > 0, s.send, s.err, 0, ctr, false)
  }

  /** Signals a selector that a walker hits and that has not been signalled. */
  function Signal(x: Selector, w: Walker): Selector {
    if !x.signalled && w.Hits(x) then x.(signalled := true, sem := x.sem + 1) else x
  }

  function Removed(list: seq<nat>, j: nat): seq<nat> {
    if list == [] then [] else if list[0] == j then list[1..] else [list[0]] + Removed(list[1..], j)
  }

  ghost predicate Enabled(s: State, e: Event) {
    match e
    case Occur(i, evt) => CanOccur(s, i, evt)
    case Walk(w) => CanWalk(s, w)
    case Link(j, rd, wr, ex) => j < |s.sels| && s.sels[j].phase.Out?
    case Count(j) => CanCount(s, j)
    case Scan(j) => CanScan(s, j)
    case Wake(j) => j < |s.sels| && s.sels[j].phase.Blocked? && s.sels[j].sem > 0
    case Timeout(j) => j < |s.sels| && s.sels[j].phase.Blocked?
    case Uncount(j) => CanUncount(s, j)
    case Unlink(j) => j < |s.sels| && s.sels[j].phase.Leaving? && s.sels[j].phase.k >= s.sels[j].phase.limit
    case Fill(i) => i < |s.socks|
    case Drain(i) => i < |s.socks|
  }

  /** The position a walker continues from: the beginning again, if the list has changed. */
  function Resume(s: State, w: Walker): nat {
    if w.last == s.ctr then w.pos else 0
  }

  ghost predicate WalkOk(s: State, w: Walker) {
    && Resume(s, w) <= |s.list|
    && forall p | 0 <= p < |s.list| :: s.list[p] < |s.sels|
  }

  predicate CanOccur(s: State, i: nat, evt: Evt) {
    i < |s.socks| && NoOverflow(s.socks[i], evt)
  }

  function AfterOccur(s: State, i: nat, evt: Evt): State
    requires CanOccur(s, i, evt)
  {
    var (sock, check) := Occurred(s.socks[i], evt);
    s.(socks := s.socks[i := sock],
       walkers := s.walkers + if sock.waiting > 0 && check then [NewWalker(i, sock, s.ctr)] else [])
  }

  ghost predicate CanWalk(s: State, w: nat) {
    w < |s.walkers| && !s.walkers[w].done && WalkOk(s, s.walkers[w])
  }

  function AfterWalk(s: State, w: nat): State
    requires CanWalk(s, w)
  {
    var x := s.walkers[w];
    var p := Resume(s, x);
    if p == |s.list| then s.(walkers := s.walkers[w := x.(done := true)])
    else s.(walkers := s.walkers[w := x.(pos := p + 1, last := s.ctr)],
            sels := s.sels[s.list[p] := Signal(s.sels[s.list[p]], x)])
  }

  predicate CanCount(s: State, j: nat) {
    j < |s.sels| && s.sels[j].phase.Joining?
  }

  function AfterCount(s: State, j: nat): State
    requires CanCount(s, j)
  {
    var x := s.sels[j];
    var k := x.phase.k;
    if k >= |s.socks| then s.(sels := s.sels[j := x.(phase := Scanning(0))])
    else if !x.Sets(k) then s.(sels := s.sels[j := x.(phase := Joining(k + 1))])
    else if s.socks[k].waiting == 255 then s.(sels := s.sels[j := x.(phase := Leaving(0, k))])
    else s.(sels := s.sels[j := x.(phase := Joining(k + 1))],
        socks := s.socks[k := s.socks[k].(waiting := s.socks[k].waiting + 1)])
  }

  predicate CanScan(s: State, j: nat) {
    j < |s.sels| && s.sels[j].phase.Scanning?
  }

  function AfterScan(s: State, j: nat): State
    requires CanScan(s, j)
  {
    var x := s.sels[j];
    var k := x.phase.k;
    if k >= |s.socks| then s.(sels := s.sels[j := x.(phase := if x.nready then Leaving(0, |s.socks|) else Blocked)])
    else s.(sels := s.sels[j := x.(phase := Scanning(k + 1), nready := x.nready || x.Sees(k, s.socks[k]))])
  }

  predicate CanUncount(s: State, j: nat) {
    j < |s.sels| && s.sels[j].phase.Leaving? && s.sels[j].phase.k < s.sels[j].phase.limit
  }

  function AfterUncount(s: State, j: nat): State
    requires CanUncount(s, j)
  {
    var x := s.sels[j];
    var k := x.phase.k;
    var socks :=
      if x.Sets(k) && k < |s.socks| && s.socks[k].waiting > 0 then
        s.socks[k := s.socks[k].(waiting := s.socks[k].waiting - 1)]
      else s.socks;
    s.(sels := s.sels[j := x.(phase := Leaving(k + 1, x.phase.limit))], socks := socks)
  }

  function WithData(s: State, i: nat, data: bool): State
    requires i < |s.socks|
  {
    s.(socks := s.socks[i := s.socks[i].(lastdata := data)])
  }

  function Next(s: State, e: Event): State
    requires Enabled(s, e)
  {
    match e
    case Occur(i, evt) => AfterOccur(s, i, evt)
    case Walk(w) => AfterWalk(s, w)
    case Link(j, rd, wr, ex) =>
      s.(sels := s.sels[j := Selector(Joining(0), rd, wr, ex, false, 0, false)], list := [j] + s.list, ctr := s.ctr + 1)
    case Count(j) => AfterCount(s, j)
    case Scan(j) => AfterScan(s, j)
    case Wake(j) => s.(sels := s.sels[j := s.sels[j].(phase := Leaving(0, |s.socks|), sem := s.sels[j].sem - 1)])
    case Timeout(j) => s.(sels := s.sels[j := s.sels[j].(phase := Leaving(0, |s.socks|))])
    case Uncount(j) => AfterUncount(s, j)
    case Unlink(j) => s.(sels := s.sels[j := s.sels[j].(phase := Out)], list := Removed(s.list, j), ctr := s.ctr + 1)
    case Fill(i) => WithData(s, i, true)
    case Drain(i) => WithData(s, i, false)
  }

  // ---------- the invariant ----------

  /** How many selectors count on socket i. */
  function Holders(sels: seq<Selector>, i: nat): nat {
    if sels == [] then 0 else (if sels[0].Holds(i) then 1 else 0) + Holders(sels[1..], i)
  }

  /** Walker w reports an event of this kind on socket i and has selector j still before it. */
  ghost predicate Reaches(s: State, w: Walker, j: nat, i: nat, k: Kind) {
    && !w.done && w.sock == i && w.Has(k)
    && (w.last == s.ctr ==> w.pos <= |s.list| && j in s.list[w.pos..])
  }

  /** Some event_callback for this event is between its update and selector j's turn. */
  ghost predicate Coming(s: State, j: nat, i: nat, k: Kind) {
    exists w :: 0 <= w < |s.walkers| && Reaches(s, s.walkers[w], j, i, k)
  }

  ghost predicate Safe(s: State, j: nat, i: nat, k: Kind)
    requires j < |s.sels| && i < |s.socks|
  {
    var x := s.sels[j];
    x.Scanned(i) && !x.nready && x.Watches(i, k) && s.socks[i].Ready(k) ==> x.signalled || Coming(s, j, i, k)
  }

  ghost predicate Below(fds: set<nat>, n: nat) {
    forall i | i in fds :: i < n
  }

  ghost predicate SelOk(s: State, x: Selector) {
    && (x.phase.Scanning? || x.phase.Blocked? ==> x.sem == if x.signalled then 1 else 0)
    && (x.phase.Joining? ==> x.phase.k <= |s.socks| && x.sem == if x.signalled then 1 else 0)
    && (x.phase.Leaving? ==> x.phase.limit <= |s.socks|)
    && (x.phase != Out ==> Below(x.rd, |s.socks|) && Below(x.wr, |s.socks|) && Below(x.ex, |s.socks|))
  }

  ghost predicate WalkerOk(s: State, w: Walker) {
    w.last <= s.ctr && (w.last == s.ctr ==> w.pos <= |s.list|)
  }

  ghost predicate ListOk(s: State) {
    && (forall j | j in s.list :: j < |s.sels|)
    && (forall j | 0 <= j < |s.sels| :: s.sels[j].phase != Out ==> j in s.list)
  }

  ghost predicate Ok(s: State) {
    && ListOk(s)
    && (forall j {:trigger s.sels[j]} | 0 <= j < |s.sels| :: SelOk(s, s.sels[j]))
    && (forall w {:trigger s.walkers[w]} | 0 <= w < |s.walkers| :: WalkerOk(s, s.walkers[w]))
    && (forall i {:trigger Holders(s.sels, i)} | 0 <= i < |s.socks| :: s.socks[i].waiting == Holders(s.sels, i))
    && (forall j, i, k {:trigger Safe(s, j, i, k)} | 0 <= j < |s.sels| && 0 <= i < |s.socks| :: Safe(s, j, i, k))
  }

  // ---------- counting ----------

  lemma {:induction false} HoldersSet(sels: seq<Selector>, j: nat, x: Selector, i: nat)
    requires j < |sels|
    ensures Holders(sels[j := x], i) + (if sels[j].Holds(i) then 1 else 0)
            == Holders(sels, i) + if x.Holds(i) then 1 else 0
  {
    if j > 0 {
      assert sels[j := x][1..] == sels[1..][j - 1 := x];
      HoldersSet(sels[1..], j - 1, x, i);
    } else {
      assert sels[j := x][1..] == sels[1..];
    }
  }

  lemma {:induction false} HoldersSome(sels: seq<Selector>, j: nat, i: nat)
    requires j < |sels| && sels[j].Holds(i)
    ensures Holders(sels, i) >= 1
  {
    if j > 0 {
      HoldersSome(sels[1..], j - 1, i);
    }
  }

  lemma {:induction false} RemovedKeeps(list: seq<nat>, j: nat)
    ensures forall x | x in Removed(list, j) :: x in list
    ensures forall x | x in list && x != j :: x in Removed(list, j)
  {
    if list != [] && list[0] != j {
      RemovedKeeps(list[1..], j);
      forall x | x in list && x != j ensures x in Removed(list, j) {
        if x != list[0] { assert x in list[1..]; }
      }
    }
  }

  // ---------- steps that leave sockets and list alone and change one selector ----------

  /** Selector j becomes x, and perhaps some select_waiting changes; x is no further in its scan, or sees what it
   * scans. */
  ghost predicate SelStep(s: State, j: nat, t: State)
    requires j < |s.sels|
  {
    && |t.sels| == |s.sels| && t == s.(sels := s.sels[j := t.sels[j]], socks := t.socks) && |t.socks| == |s.socks|
    && SelOk(t, t.sels[j]) && (t.sels[j].phase != Out ==> s.sels[j].phase != Out)
    && (forall i {:trigger t.socks[i]} | 0 <= i < |s.socks| ::
          && t.socks[i] == s.socks[i].(waiting := t.socks[i].waiting)
          && t.socks[i].waiting + (if s.sels[j].Holds(i) then 1 else 0) ==
             s.socks[i].waiting + if t.sels[j].Holds(i) then 1 else 0)
    && (forall i {:trigger s.sels[j].Scanned(i)} | 0 <= i < |s.socks| && t.sels[j].Scanned(i) && !t.sels[j].nready ::
          if s.sels[j].Scanned(i) then
            !s.sels[j].nready && t.sels[j].signalled == s.sels[j].signalled
            && t.sels[j].rd == s.sels[j].rd && t.sels[j].wr == s.sels[j].wr && t.sels[j].ex == s.sels[j].ex
          else !t.sels[j].Sees(i, s.socks[i]))
  }

  lemma {:induction false} SelStepKeeps(s: State, j: nat, t: State)
    requires Ok(s) && j < |s.sels| && SelStep(s, j, t)
    ensures Ok(t)
  {
    forall i {:trigger Holders(t.sels, i)} | 0 <= i < |t.socks| ensures t.socks[i].waiting == Holders(t.sels, i) {
      HoldersSet(s.sels, j, t.sels[j], i);
      assert s.socks[i].waiting == Holders(s.sels, i);
    }
    forall h, i, k {:trigger Safe(t, h, i, k)} | 0 <= h < |t.sels| && 0 <= i < |t.socks| ensures Safe(t, h, i, k) {
      assert Safe(s, h, i, k);
      assert t.socks[i].Ready(k) == s.socks[i].Ready(k);
      assert s.sels[j].Scanned(i) || !s.sels[j].Scanned(i);
      if Coming(s, h, i, k) {
        var w :| 0 <= w < |s.walkers| && Reaches(s, s.walkers[w], h, i, k);
        assert Reaches(t, t.walkers[w], h, i, k);
      }
    }
    forall h {:trigger t.sels[h]} | 0 <= h < |t.sels| ensures SelOk(t, t.sels[h]) {
      assert h != j ==> SelOk(s, s.sels[h]);
    }
    forall w {:trigger t.walkers[w]} | 0 <= w < |t.walkers| ensures WalkerOk(t, t.walkers[w]) {
      assert WalkerOk(s, s.walkers[w]);
    }
  }

  lemma {:induction false} CountIs(s: State, j: nat)
    requires Ok(s) && CanCount(s, j)
    ensures SelStep(s, j, AfterCount(s, j))
  {
    var x, k := s.sels[j], s.sels[j].phase.k;
    assert SelOk(s, x);
    if k < |s.socks| && x.Sets(k) && s.socks[k].waiting < 255 {
      CountOne(s, j);
    }
  }

  lemma {:induction false} CountOne(s: State, j: nat)
    requires Ok(s) && CanCount(s, j) && s.sels[j].phase.k < |s.socks| && s.sels[j].Sets(s.sels[j].phase.k)
    requires s.socks[s.sels[j].phase.k].waiting < 255
    ensures SelStep(s, j, AfterCount(s, j))
  {
    assert SelOk(s, s.sels[j]);
  }

  lemma {:induction false} ScanIs(s: State, j: nat)
    requires Ok(s) && CanScan(s, j)
    ensures SelStep(s, j, AfterScan(s, j))
  {
    assert SelOk(s, s.sels[j]);
  }

  lemma {:induction false} ReturnIs(s: State, j: nat, e: Event)
    requires Ok(s) && Enabled(s, e) && (e == Wake(j) || e == Timeout(j))
    ensures SelStep(s, j, Next(s, e))
  {
    assert SelOk(s, s.sels[j]);
  }

  lemma {:induction false} UncountIs(s: State, j: nat)
    requires Ok(s) && CanUncount(s, j)
    ensures SelStep(s, j, AfterUncount(s, j))
  {
    assert SelOk(s, s.sels[j]);
    if s.sels[j].Sets(s.sels[j].phase.k) {
      WaitingPositive(s, j);
    }
  }

  /** lwip_select's own assertion when it stops waiting. */
  lemma {:induction false} WaitingPositive(s: State, j: nat)
    requires Ok(s) && CanUncount(s, j) && s.sels[j].Sets(s.sels[j].phase.k)
    ensures s.sels[j].phase.k < |s.socks| && s.socks[s.sels[j].phase.k].waiting > 0
  {
    var k := s.sels[j].phase.k;
    assert SelOk(s, s.sels[j]);
    HoldersSome(s.sels, j, k);
    assert s.socks[k].waiting == Holders(s.sels, k);
  }

  // ---------- the other steps ----------

  lemma {:induction false} OccurSafe(s: State, i: nat, evt: Evt, j: nat, h: nat, k: Kind)
    requires Ok(s) && CanOccur(s, i, evt) && j < |s.sels| && h < |s.socks|
    ensures Safe(AfterOccur(s, i, evt), j, h, k)
  {
    var t, x := AfterOccur(s, i, evt), s.sels[j];
    assert Safe(s, j, h, k);
    if x.Scanned(h) && !x.nready && x.Watches(h, k) && t.socks[h].Ready(k) && !x.signalled {
      if s.socks[h].Ready(k) {
        var w :| 0 <= w < |s.walkers| && Reaches(s, s.walkers[w], j, h, k);
        assert Reaches(t, t.walkers[w], j, h, k);
      } else {
        HoldersSome(s.sels, j, i);
        assert s.socks[i].waiting == Holders(s.sels, i);
        assert s.list[0..] == s.list;
        assert Reaches(t, t.walkers[|s.walkers|], j, h, k);
      }
    }
  }

  lemma {:induction false} OccurKeeps(s: State, i: nat, evt: Evt)
    requires Ok(s) && CanOccur(s, i, evt)
    ensures Ok(AfterOccur(s, i, evt))
  {
    var t := AfterOccur(s, i, evt);
    forall j, h, k {:trigger Safe(t, j, h, k)} | 0 <= j < |t.sels| && 0 <= h < |t.socks| ensures Safe(t, j, h, k) {
      OccurSafe(s, i, evt, j, h, k);
    }
    forall j {:trigger t.sels[j]} | 0 <= j < |t.sels| ensures SelOk(t, t.sels[j]) {
      assert SelOk(s, s.sels[j]);
    }
    forall h {:trigger Holders(t.sels, h)} | 0 <= h < |t.socks| ensures t.socks[h].waiting == Holders(t.sels, h) {
      assert s.socks[h].waiting == Holders(s.sels, h);
    }
    forall w {:trigger t.walkers[w]} | 0 <= w < |t.walkers| ensures WalkerOk(t, t.walkers[w]) {
      assert w < |s.walkers| ==> WalkerOk(s, s.walkers[w]);
    }
  }

  lemma {:induction false} DataKeeps(s: State, i: nat, data: bool)
    requires Ok(s) && i < |s.socks|
    ensures Ok(WithData(s, i, data))
  {
    var t := WithData(s, i, data);
    forall j, h, k {:trigger Safe(t, j, h, k)} | 0 <= j < |t.sels| && 0 <= h < |t.socks| ensures Safe(t, j, h, k) {
      assert Safe(s, j, h, k);
      if Coming(s, j, h, k) {
        var w :| 0 <= w < |s.walkers| && Reaches(s, s.walkers[w], j, h, k);
        assert Reaches(t, t.walkers[w], j, h, k);
      }
    }
    forall j {:trigger t.sels[j]} | 0 <= j < |t.sels| ensures SelOk(t, t.sels[j]) {
      assert SelOk(s, s.sels[j]);
    }
    forall h {:trigger Holders(t.sels, h)} | 0 <= h < |t.socks| ensures t.socks[h].waiting == Holders(t.sels, h) {
      assert s.socks[h].waiting == Holders(s.sels, h);
    }
    forall w {:trigger t.walkers[w]} | 0 <= w < |t.walkers| ensures WalkerOk(t, t.walkers[w]) {
      assert WalkerOk(s, s.walkers[w]);
    }
  }

  /** After the round of walker w selector j has been signalled or is still before the walker. */
  lemma {:induction false} WalkReaches(s: State, w: nat, j: nat, i: nat, k: Kind)
    requires Ok(s) && CanWalk(s, w) && j < |s.sels| && j in s.list && Reaches(s, s.walkers[w], j, i, k)
    requires s.sels[j].Watches(i, k)
    ensures var t := AfterWalk(s, w); t.sels[j].signalled || Reaches(t, t.walkers[w], j, i, k)
  {
    var p := Resume(s, s.walkers[w]);
    StillAhead(s.list, p, j);
  }

  lemma {:induction false} StillAhead(list: seq<nat>, p: nat, j: nat)
    requires p <= |list| && j in list && (p > 0 ==> j in list[p..])
    ensures p < |list| && (list[p] == j || j in list[p + 1..])
  {
    assert list[0..] == list;
    var q :| p <= q < |list| && list[q] == j;
    if q > p { assert list[p + 1..][q - p - 1] == j; }
  }

  lemma {:induction false} WalkSafe(s: State, w: nat, j: nat, i: nat, k: Kind)
    requires Ok(s) && CanWalk(s, w) && j < |s.sels| && i < |s.socks|
    ensures Safe(AfterWalk(s, w), j, i, k)
  {
    assert Safe(s, j, i, k);
    if s.sels[j].Scanned(i) && s.sels[j].Watches(i, k) && Coming(s, j, i, k) {
      var v :| 0 <= v < |s.walkers| && Reaches(s, s.walkers[v], j, i, k);
      if v == w {
        WalkReaches(s, w, j, i, k);
      } else {
        var t := AfterWalk(s, w);
        assert t.walkers[v] == s.walkers[v];
        assert Reaches(t, t.walkers[v], j, i, k);
      }
    }
  }

  lemma {:induction false} WalkKeeps(s: State, w: nat)
    requires Ok(s) && CanWalk(s, w)
    ensures Ok(AfterWalk(s, w))
  {
    var t := AfterWalk(s, w);
    assert WalkerOk(s, s.walkers[w]);
    forall j, i, k {:trigger Safe(t, j, i, k)} | 0 <= j < |t.sels| && 0 <= i < |t.socks| ensures Safe(t, j, i, k) {
      WalkSafe(s, w, j, i, k);
    }
    forall j {:trigger t.sels[j]} | 0 <= j < |t.sels| ensures SelOk(t, t.sels[j]) {
      assert SelOk(s, s.sels[j]);
    }
    forall i {:trigger Holders(t.sels, i)} | 0 <= i < |t.socks| ensures t.socks[i].waiting == Holders(t.sels, i) {
      assert s.socks[i].waiting == Holders(s.sels, i);
      var p := Resume(s, s.walkers[w]);
      if p < |s.list| { HoldersSet(s.sels, s.list[p], Signal(s.sels[s.list[p]], s.walkers[w]), i); }
    }
    forall v {:trigger t.walkers[v]} | 0 <= v < |t.walkers| ensures WalkerOk(t, t.walkers[v]) {
      assert WalkerOk(s, s.walkers[v]);
    }
  }

  /** Linking and unlinking restart every walker, so that each still reaches all selectors that remain. */
  ghost predicate ListStep(s: State, j: nat, t: State)
    requires j < |s.sels|
  {
    && |t.sels| == |s.sels| && t == s.(sels := s.sels[j := t.sels[j]], list := t.list, ctr := s.ctr + 1)
    && ListOk(t) && SelOk(t, t.sels[j])
    && (forall i :: !s.sels[j].Holds(i) && !t.sels[j].Holds(i) && !t.sels[j].Scanned(i))
  }

  lemma {:induction false} ListStepKeeps(s: State, j: nat, t: State)
    requires Ok(s) && j < |s.sels| && ListStep(s, j, t)
    ensures Ok(t)
  {
    forall h, i, k {:trigger Safe(t, h, i, k)} | 0 <= h < |t.sels| && 0 <= i < |t.socks| ensures Safe(t, h, i, k) {
      assert Safe(s, h, i, k);
      if Coming(s, h, i, k) {
        var w :| 0 <= w < |s.walkers| && Reaches(s, s.walkers[w], h, i, k);
        assert WalkerOk(s, s.walkers[w]);
        assert Reaches(t, t.walkers[w], h, i, k);
      }
    }
    forall h {:trigger t.sels[h]} | 0 <= h < |t.sels| ensures SelOk(t, t.sels[h]) {
      assert h != j ==> SelOk(s, s.sels[h]);
    }
    forall i {:trigger Holders(t.sels, i)} | 0 <= i < |t.socks| ensures t.socks[i].waiting == Holders(t.sels, i) {
      assert s.socks[i].waiting == Holders(s.sels, i);
      HoldersSet(s.sels, j, t.sels[j], i);
    }
    forall w {:trigger t.walkers[w]} | 0 <= w < |t.walkers| ensures WalkerOk(t, t.walkers[w]) {
      assert WalkerOk(s, s.walkers[w]);
    }
  }

  /** The sets name sockets that exist. */
  ghost predicate Fits(s: State, e: Event) {
    e.Link? ==> Below(e.rd, |s.socks|) && Below(e.wr, |s.socks|) && Below(e.ex, |s.socks|)
  }

  lemma {:induction false} StepKeeps(s: State, e: Event)
    requires Ok(s) && Enabled(s, e) && Fits(s, e)
    ensures Ok(Next(s, e))
  {
    match e
    case Occur(i, evt) => OccurKeeps(s, i, evt);
    case Walk(w) => WalkKeeps(s, w);
    case Link(j, rd, wr, ex) => ListStepKeeps(s, j, Next(s, e));
    case Unlink(j) =>
      RemovedKeeps(s.list, j);
      ListStepKeeps(s, j, Next(s, e));
    case Fill(i) => DataKeeps(s, i, true);
    case Drain(i) => DataKeeps(s, i, false);
    case Count(j) =>
      CountIs(s, j);
      SelStepKeeps(s, j, Next(s, e));
    case Scan(j) =>
      ScanIs(s, j);
      SelStepKeeps(s, j, Next(s, e));
    case Wake(j) =>
      ReturnIs(s, j, e);
      SelStepKeeps(s, j, Next(s, e));
    case Timeout(j) =>
      ReturnIs(s, j, e);
      SelStepKeeps(s, j, Next(s, e));
    case Uncount(j) =>
      UncountIs(s, j);
      SelStepKeeps(s, j, Next(s, e));
  }

  // ---------- runs ----------

  /** No call of lwip_select is under way; the sockets may be in any state. */
  ghost predicate Start(s: State) {
    && s.list == [] && s.walkers == []
    && (forall j | 0 <= j < |s.sels| :: s.sels[j].phase == Out)
    && (forall i | 0 <= i < |s.socks| :: s.socks[i].waiting == 0)
  }

  ghost predicate Run(states: seq<State>, events: seq<Event>) {
    && |states| == |events| + 1 && Start(states[0])
    && forall k {:trigger events[k]} | 0 <= k < |events| ::
         Enabled(states[k], events[k]) && Fits(states[k], events[k]) && states[k + 1] == Next(states[k], events[k])
  }

  lemma {:induction false} NoHolders(sels: seq<Selector>, i: nat)
    requires forall j | 0 <= j < |sels| :: sels[j].phase == Out
    ensures Holders(sels, i) == 0
  {
    if sels != [] {
      NoHolders(sels[1..], i);
    }
  }

  lemma {:induction false} RunOk(states: seq<State>, events: seq<Event>, k: nat)
    requires Run(states, events) && k <= |events|
    ensures Ok(states[k])
  {
    if k == 0 {
      forall i {:trigger Holders(states[0].sels, i)} | 0 <= i < |states[0].socks|
        ensures states[0].socks[i].waiting == Holders(states[0].sels, i)
      {
        NoHolders(states[0].sels, i);
      }
    } else {
      RunOk(states, events, k - 1);
      assert Enabled(states[k - 1], events[k - 1]) && states[k] == Next(states[k - 1], events[k - 1]);
      StepKeeps(states[k - 1], events[k - 1]);
    }
  }

  /** No wake-up is lost: in every state of every run of any number of selectors and event sources, when a
    * selector waits and an event it watches has been reported, either its semaphore is signalled or some
    * event_callback is between its update and the selector's turn. */
  lemma {:induction false} NoLostWakeup(states: seq<State>, events: seq<Event>, k: nat, j: nat, i: nat, kind: Kind)
    requires Run(states, events) && k <= |events| && j < |states[k].sels| && i < |states[k].socks|
    requires states[k].sels[j].phase.Blocked? && states[k].sels[j].Watches(i, kind) && states[k].socks[i].Ready(kind)
    ensures (states[k].sels[j].signalled && states[k].sels[j].sem == 1) || Coming(states[k], j, i, kind)
  {
    RunOk(states, events, k);
    BlockedUnready(states, events, k, j);
    assert Safe(states[k], j, i, kind) && SelOk(states[k], states[k].sels[j]);
  }

  /** A selector only waits if its second scan found nothing. */
  lemma {:induction false} BlockedUnready(states: seq<State>, events: seq<Event>, k: nat, j: nat)
    requires Run(states, events) && k <= |events| && j < |states[k].sels| && states[k].sels[j].phase.Blocked?
    ensures !states[k].sels[j].nready
  {
    if k > 0 {
      assert Enabled(states[k - 1], events[k - 1]) && states[k] == Next(states[k - 1], events[k - 1]);
      if states[k - 1].sels[j].phase.Blocked? {
        BlockedUnready(states, events, k - 1, j);
      }
    }
  }

  /** From step m on the second scan of selector j is past socket i, and no reader has taken its data. */
  ghost predicate LeftBehind(states: seq<State>, events: seq<Event>, m: nat, k: nat, j: nat, i: nat) {
    && m < k <= |events| && k < |states| && events[m] == Fill(i)
    && (forall n {:trigger states[n]} | m <= n <= k :: j < |states[n].sels| && states[n].sels[j].Scanned(i))
    && (forall n {:trigger events[n]} | m < n < k :: events[n] != Drain(i))
  }

  /** What one step does to the data and to the scan. */
  lemma {:induction false} StepData(s: State, e: Event, j: nat, i: nat)
    requires Enabled(s, e) && j < |s.sels| && i < |s.socks|
    ensures |Next(s, e).sels| == |s.sels| && |Next(s, e).socks| == |s.socks|
    ensures Next(s, e).socks[i].lastdata ==
            if e == Fill(i) then true else if e == Drain(i) then false else s.socks[i].lastdata
    ensures var x, y := s.sels[j], Next(s, e).sels[j];
            y.Scanned(i) && !y.nready && i in y.rd ==>
              i in x.rd && !x.nready && (x.Scanned(i) || (e == Scan(j) && !s.socks[i].lastdata))
  {
  }

  lemma {:induction false} RunSizes(states: seq<State>, events: seq<Event>, k: nat)
    requires Run(states, events) && k <= |events|
    ensures |states[k].sels| == |states[0].sels| && |states[k].socks| == |states[0].socks|
  {
    if k > 0 {
      RunSizes(states, events, k - 1);
      assert Enabled(states[k - 1], events[k - 1]) && states[k] == Next(states[k - 1], events[k - 1]);
      SizesKeep(states[k - 1], events[k - 1]);
    }
  }

  lemma {:induction false} SizesKeep(s: State, e: Event)
    requires Enabled(s, e)
    ensures |Next(s, e).sels| == |s.sels| && |Next(s, e).socks| == |s.socks|
  {
  }

  /** Data that was left behind the scan stays until it is taken. */
  lemma {:induction false} LeftStays(states: seq<State>, events: seq<Event>, m: nat, k: nat, j: nat, i: nat)
    requires Run(states, events) && LeftBehind(states, events, m, k, j, i) && i < |states[0].socks|
    ensures i < |states[k].socks| && states[k].socks[i].lastdata
    decreases k
  {
    RunSizes(states, events, k - 1);
    RunSizes(states, events, k);
    assert Enabled(states[k - 1], events[k - 1]) && states[k] == Next(states[k - 1], events[k - 1]);
    assert j < |states[k - 1].sels|;
    StepData(states[k - 1], events[k - 1], j, i);
    if m < k - 1 {
      LeftStays(states, events, m, k - 1, j, i);
    }
  }

  /** A selector whose second scan has passed socket i without finding anything overlooks data there if and
    * only if a reader has left them after the scan had passed and nobody has taken them since. */
  lemma {:induction false} SleepsOnDataIff(states: seq<State>, events: seq<Event>, k: nat, j: nat, i: nat)
    requires Run(states, events) && k <= |events| && j < |states[k].sels| && i < |states[k].socks|
    requires states[k].sels[j].Scanned(i) && !states[k].sels[j].nready && i in states[k].sels[j].rd
    ensures states[k].socks[i].lastdata <==> exists m :: LeftBehind(states, events, m, k, j, i)
  {
    RunSizes(states, events, k);
    if m :| LeftBehind(states, events, m, k, j, i) {
      LeftStays(states, events, m, k, j, i);
    }
    if states[k].socks[i].lastdata {
      var m := WhoLeft(states, events, k, j, i);
    }
  }

  lemma {:induction false} WhoLeft(states: seq<State>, events: seq<Event>, k: nat, j: nat, i: nat) returns (m: nat)
    requires Run(states, events) && k <= |events| && j < |states[k].sels| && i < |states[k].socks|
    requires states[k].sels[j].Scanned(i) && !states[k].sels[j].nready && i in states[k].sels[j].rd
        && states[k].socks[i].lastdata
    ensures LeftBehind(states, events, m, k, j, i)
    decreases k
  {
    assert k > 0;
    RunSizes(states, events, k - 1);
    RunSizes(states, events, k);
    assert Enabled(states[k - 1], events[k - 1]) && states[k] == Next(states[k - 1], events[k - 1]);
    StepData(states[k - 1], events[k - 1], j, i);
    if events[k - 1] == Fill(i) {
      m := k - 1;
    } else {
      m := WhoLeft(states, events, k - 1, j, i);
    }
  }

  /** Such a run: the reader takes the data off the netconn before the selector's second scan
    * and puts the rest into lastdata after it. */
  lemma {:induction false} SleepsOnData() returns (states: seq<State>, events: seq<Event>)
    ensures Run(states, events)
    ensures var s := states[|events|];
            && |s.socks| == 1 && |s.sels| == 1 && s.sels[0].phase.Blocked? && 0 in s.sels[0].rd && s.socks[0].lastdata
            && !s.sels[0].signalled && s.walkers == []
  {
    states, events := ReaderLinks();
    states, events := RunOn(states, events, Count(0), OneReader(Joining(1), 1, false));
    states, events := RunOn(states, events, Count(0), OneReader(Scanning(0), 1, false));
    states, events := RunOn(states, events, Scan(0), OneReader(Scanning(1), 1, false));
    states, events := RunOn(states, events, Scan(0), OneReader(Blocked, 1, false));
    states, events := RunOn(states, events, Fill(0), OneReader(Blocked, 1, true));
  }

  lemma {:induction false} ReaderLinks() returns (states: seq<State>, events: seq<Event>)
    ensures Run(states, events) && states[|events|] == OneReader(Joining(0), 0, false)
  {
    var s0 := State([Sock(0, true, false, false, 0)], [Selector(Out, {}, {}, {}, false, 0, false)], [], 0, []);
    var s1 := s0.(socks := [Sock(1, true, false, false, 0)]);
    states, events := [s0], [];
    states, events := RunOn(states, events, Occur(0, RCVPLUS), s1);
    states, events := RunOn(states, events, Occur(0, RCVMINUS), s0);
    assert [0] + s0.list == [0];
    states, events := RunOn(states, events, Link(0, {0}, {}, {}), OneReader(Joining(0), 0, false));
  }

  lemma {:induction false} RunOn(states: seq<State>, events: seq<Event>, e: Event, t: State)
      returns (longer: seq<State>, more: seq<Event>)
    requires Run(states, events) && Enabled(states[|events|], e) && Fits(states[|events|], e)
        && t == Next(states[|events|], e)
    ensures Run(longer, more) && longer[|more|] == t
  {
    longer, more := states + [t], events + [e];
    forall k {:trigger more[k]} | 0 <= k < |more|
      ensures Enabled(longer[k], more[k]) && Fits(longer[k], more[k]) && longer[k + 1] == Next(longer[k], more[k])
    {
      if k < |events| {
        assert events[k] == more[k] && longer[k] == states[k] && longer[k + 1] == states[k + 1];
      }
    }
  }

  /** One selector that waits to read from one socket without events. */
  function OneReader(phase: Phase, waiting: u8, lastdata: bool): State {
    State([Sock(0, true, false, lastdata, waiting)], [Selector(phase, {0}, {}, {}, false, 0, false)], [0], 1, [])
  }

  // ---------- a callback on its way gets there ----------

  /** The rounds of walker w, undisturbed, to the end. */
  function WalkOut(s: State, w: nat): State
    requires w < |s.walkers| && WalkOk(s, s.walkers[w])
    decreases if s.walkers[w].done then 0 else 1 + |s.list| - Resume(s, s.walkers[w])
  {
    if s.walkers[w].done then s else WalkOut(AfterWalk(s, w), w)
  }

  lemma {:induction false} WalkOutKeeps(s: State, w: nat, j: nat)
    requires w < |s.walkers| && WalkOk(s, s.walkers[w]) && j < |s.sels| && s.sels[j].signalled
    ensures |WalkOut(s, w).sels| == |s.sels| && WalkOut(s, w).sels[j].signalled
    decreases if s.walkers[w].done then 0 else 1 + |s.list| - Resume(s, s.walkers[w])
  {
    if !s.walkers[w].done {
      WalkOutKeeps(AfterWalk(s, w), w, j);
    }
  }

  /** A callback that is on its way to a selector signals it, whatever happened to the list before. */
  lemma {:induction false} CallbackArrives(s: State, w: nat, j: nat, i: nat, k: Kind)
    requires Ok(s) && w < |s.walkers| && Reaches(s, s.walkers[w], j, i, k) && WalkOk(s, s.walkers[w])
    requires j < |s.sels| && s.sels[j].phase != Out && s.sels[j].Watches(i, k)
    ensures |WalkOut(s, w).sels| == |s.sels| && WalkOut(s, w).sels[j].signalled
    decreases 1 + |s.list| - Resume(s, s.walkers[w])
  {
    assert WalkerOk(s, s.walkers[w]);
    var t := AfterWalk(s, w);
    WalkReaches(s, w, j, i, k);
    WalkKeeps(s, w);
    if t.sels[j].signalled {
      WalkOutKeeps(t, w, j);
    } else {
      CallbackArrives(t, w, j, i, k);
    }
  }

  // ---------- the list as it is linked ----------

  /** A link to a lwip_select_cb: the selector it belongs to, or NULL. */
  type Ref = l: int | -1 <= l
  const NULL: Ref := -1

  /** The next and prev of each lwip_select_cb. */
  datatype Links = Links(next: seq<Ref>, prev: seq<Ref>)

  function ToFirst(list: seq<nat>): Ref {
    if list == [] then NULL else list[0]
  }

  function ToNext(list: seq<nat>, p: nat): Ref {
    if p + 1 < |list| then list[p + 1] else NULL
  }

  function ToPrev(list: seq<nat>, p: nat): Ref
    requires p < |list|
  {
    if p > 0 then list[p - 1] else NULL
  }

  ghost predicate LinkedAt(l: Links, list: seq<nat>, p: nat)
    requires p < |list|
  {
    && list[p] < |l.next| == |l.prev|
    && l.next[list[p]] == ToNext(list, p) && l.prev[list[p]] == ToPrev(list, p)
  }

  /** Following next from head gives the list, each entry once; prev leads back. */
  ghost predicate Linked(l: Links, head: Ref, list: seq<nat>, n: nat) {
    && |l.next| == |l.prev| == n && head == ToFirst(list)
    && (forall p, q | 0 <= p < q < |list| :: list[p] != list[q])
    && forall p {:trigger LinkedAt(l, list, p)} | 0 <= p < |list| :: LinkedAt(l, list, p)
  }

  /** In front of the list. */
  lemma {:induction false} LinkedFront(l: Links, m: Links, head: Ref, list: seq<nat>, n: nat, j: nat)
    requires Linked(l, head, list, n) && j < n && j !in list && |m.next| == |m.prev| == n
    requires m.next == l.next[j := head]
    requires m.prev == if 0 <= head < n then l.prev[j := NULL][head := j] else l.prev[j := NULL]
    ensures Linked(m, j, [j] + list, n)
  {
    var all := [j] + list;
    assert head != NULL ==> LinkedAt(l, list, 0);
    forall p {:trigger LinkedAt(m, all, p)} | 0 <= p < |all| ensures LinkedAt(m, all, p) {
      if p > 0 {
        assert LinkedAt(l, list, p - 1) && all[p] == list[p - 1] && list[p - 1] in list;
      }
    }
  }

  ghost function PlaceOf(list: seq<nat>, j: nat): (p: nat)
    requires j in list
    ensures p < |list| && list[p] == j && forall q | 0 <= q < p :: list[q] != j
  {
    if list[0] == j then 0 else 1 + PlaceOf(list[1..], j)
  }

  /** What Removed makes of the list. */
  lemma {:induction false} RemovedAt(list: seq<nat>, p: nat)
    requires p < |list| && forall q | 0 <= q < p :: list[q] != list[p]
    ensures Removed(list, list[p]) == list[..p] + list[p + 1..]
  {
    if p > 0 {
      RemovedAt(list[1..], p - 1);
    }
  }

  lemma {:induction false} RemovedOnce(list: seq<nat>, j: nat)
    requires forall p, q | 0 <= p < q < |list| :: list[p] != list[q]
    ensures forall x :: x in Removed(list, j) <==> x in list && x != j
  {
    RemovedKeeps(list, j);
    if j in list {
      RemovedAt(list, PlaceOf(list, j));
    }
  }

  /** Taken out of the list at place p. */
  lemma {:induction false} LinkedWithout(l: Links, m: Links, head: Ref, first: Ref, list: seq<nat>, n: nat, p: nat)
    requires Linked(l, head, list, n) && p < |list| && |m.next| == |m.prev| == n
    requires first == if p == 0 then ToNext(list, p) else head
    requires m.prev == if p + 1 < |list| && list[p + 1] < n then l.prev[list[p + 1] := ToPrev(list, p)] else l.prev
    requires m.next == if p > 0 && list[p - 1] < n then l.next[list[p - 1] := ToNext(list, p)] else l.next
    ensures Linked(m, first, list[..p] + list[p + 1..], n)
  {
    var all := list[..p] + list[p + 1..];
    assert p > 0 ==> LinkedAt(l, list, p - 1);
    assert p + 1 < |list| ==> LinkedAt(l, list, p + 1);
    forall q {:trigger LinkedAt(m, all, q)} | 0 <= q < |all| ensures LinkedAt(m, all, q) {
      var old_q := if q < p then q else q + 1;
      assert LinkedAt(l, list, old_q) && all[q] == list[old_q];
    }
  }

  // ---------- the code of the sections ----------

  class Tables {
    var socks: seq<Sock>
    var sels: seq<Selector>
    /** select_cb_list and the links of the list's entries. */
    var head: Ref
    var links: Links
    /** select_cb_ctr. */
    var ctr: nat
    /** The calls of select_check_waiters, and scb of each: the entry it has looked at last. */
    var walkers: seq<Walker>
    var scbs: seq<Ref>
    /** The list that head leads to. */
    ghost var list: seq<nat>

    ghost function Now(): State
      reads this
    {
      State(socks, sels, list, ctr, walkers)
    }

    ghost predicate WalkerAt(w: nat)
      requires w < |walkers| == |scbs|
      reads this
    {
      var x := walkers[w];
      && x.last <= ctr
      && (x.last == ctr && !x.done ==>
            x.pos <= |list| && scbs[w] == if x.pos == 0 then NULL else list[x.pos - 1])
    }

    /** The links represent the list, which holds exactly the selectors that are not out. */
    ghost predicate Valid()
      reads this
    {
      && Linked(links, head, list, |sels|)
      && (forall j | 0 <= j < |sels| :: j in list <==> sels[j].phase != Out)
      && |walkers| == |scbs| && forall w {:trigger WalkerAt(w)} | 0 <= w < |walkers| :: WalkerAt(w)
    }

    /** event_callback, up to its call of select_check_waiters. */
    method EventCallback(i: nat, evt: Evt)
      requires Valid() && Enabled(Now(), Occur(i, evt))
      modifies this`socks, this`walkers, this`scbs
      ensures Valid() && Now() == Next(old(Now()), Occur(i, evt))
    {
      var checkWaiters := true;
      var sock := socks[i];
      match evt {
        case RCVPLUS =>
          sock := sock.(rcv := sock.rcv + 1);
          if sock.rcv > 1 { checkWaiters := false; }
        case RCVMINUS =>
          sock := sock.(rcv := sock.rcv - 1);
          checkWaiters := false;
        case SENDPLUS =>
          if sock.send { checkWaiters := false; }
          sock := sock.(send := true);
        case SENDMINUS =>
          sock := sock.(send := false);
          checkWaiters := false;
        case ERROR =>
          sock := sock.(err := true);
      }
      socks := socks[i := sock];
      if sock.waiting != 0 && checkWaiters {
        walkers := walkers + [Walker(i, sock.rcv > 0, sock.send, sock.err, 0, ctr, false)];
        scbs := scbs + [NULL];
      }
      forall w {:trigger WalkerAt(w)} | 0 <= w < |walkers| ensures WalkerAt(w) {
        assert w < old(|walkers|) ==> old(WalkerAt(w));
      }
    }

    /** One round of select_check_waiters, from taking the lock to giving it back: on to the next entry, or
      * to the first one if the list has changed. */
    method CheckWaiters(w: nat)
      requires Valid() && Enabled(Now(), Walk(w))
      modifies this`walkers, this`sels, this`scbs
      ensures Valid() && Now() == Next(old(Now()), Walk(w))
    {
      var scb := NextScb(w);
      var x := walkers[w];
      if scb == NULL {
        walkers := walkers[w := x.(done := true)];
      } else {
        SignalHit(scb, x);
        walkers := walkers[w := x.(pos := (if x.last == ctr then x.pos else 0) + 1, last := ctr)];
        scbs := scbs[w := scb];
      }
      forall v {:trigger WalkerAt(v)} | 0 <= v < |walkers| ensures WalkerAt(v) {
        assert v != w ==> old(WalkerAt(v));
      }
    }

    /** The entry a walker comes to next, if any. */
    method NextScb(w: nat) returns (scb: Ref)
      requires Valid() && w < |walkers| && !walkers[w].done
      ensures Resume(Now(), walkers[w]) <= |list|
      ensures scb == if Resume(Now(), walkers[w]) == |list| then NULL else list[Resume(Now(), walkers[w])]
    {
      assert WalkerAt(w);
      if walkers[w].last != ctr || scbs[w] == NULL {
        scb := head;
      } else {
        assert LinkedAt(links, list, walkers[w].pos - 1);
        scb := links.next[scbs[w]];
      }
    }

    /** The look at one entry: signals it if it is hit and has not been signalled. */
    method SignalHit(j: nat, x: Walker)
      requires j < |sels|
      modifies this`sels
      ensures sels == old(sels)[j := Signal(old(sels)[j], x)]
    {
      var scb := sels[j];
      if !scb.signalled {
        var doSignal := false;
        if x.r && x.sock in scb.rd { doSignal := true; }
        if x.w && !doSignal && x.sock in scb.wr { doSignal := true; }
        if x.e && !doSignal && x.sock in scb.ex { doSignal := true; }
        if doSignal {
          scb := scb.(signalled := true, sem := scb.sem + 1);
        }
      }
      sels := sels[j := scb];
    }

    /** lwip_link_select_cb of a cleared lwip_select_cb: the entry becomes the head of the linked list. */
    method LinkSelectCb(j: nat, rd: set<nat>, wr: set<nat>, ex: set<nat>)
      requires Valid() && Enabled(Now(), Link(j, rd, wr, ex))
      modifies this`sels, this`head, this`links, this`list, this`ctr
      ensures Valid() && Now() == Next(old(Now()), Link(j, rd, wr, ex))
    {
      forall w {:trigger walkers[w]} | 0 <= w < |walkers| ensures walkers[w].last <= ctr { assert WalkerAt(w); }
      ghost var l, h := links, head;
      sels := sels[j := Selector(Joining(0), rd, wr, ex, false, 0, false)];
      var next, prev := links.next[j := head], links.prev[j := NULL];
      if head != NULL {
        assert LinkedAt(links, list, 0);
        prev := prev[head := j];
      }
      links, head := Links(next, prev), j;
      LinkedFront(l, links, h, list, |sels|, j);
      list := [j] + list;
      ctr := ctr + 1;
    }

    /** lwip_unlink_select_cb: its neighbours are linked to each other; both assertions hold. */
    method UnlinkSelectCb(j: nat)
      requires Valid() && Enabled(Now(), Unlink(j))
      modifies this`sels, this`head, this`links, this`list, this`ctr
      ensures Valid() && Now() == Next(old(Now()), Unlink(j))
    {
      forall w {:trigger walkers[w]} | 0 <= w < |walkers| ensures walkers[w].last <= ctr { assert WalkerAt(w); }
      Unlinked(j, PlaceOf(list, j));
      RemovedOnce(list, j);
      sels := sels[j := sels[j].(phase := Out)];
      list := Removed(list, j);
      ctr := ctr + 1;
    }

    /** The links without the entry at place p. */
    method Unlinked(j: nat, ghost p: nat)
      requires Linked(links, head, list, |sels|) && p < |list| && list[p] == j
      modifies this`head, this`links
      ensures Linked(links, head, Removed(list, j), |sels|)
    {
      RemovedAt(list, p);
      ghost var l, h := links, head;
      assert LinkedAt(links, list, p);
      assert p > 0 ==> LinkedAt(links, list, p - 1);
      assert p + 1 < |list| ==> LinkedAt(links, list, p + 1);
      var next, prev, first := links.next, links.prev, head;
      if next[j] != NULL {
        prev := prev[next[j] := prev[j]];
      }
      if head == j {
        assert links.prev[j] == NULL;
        first := next[j];
      } else {
        assert links.prev[j] != NULL;
        next := next[links.prev[j] := next[j]];
      }
      links, head := Links(next, prev), first;
      LinkedWithout(l, links, h, head, list, |sels|, p);
    }

    /** The turn of one socket in lwip_select's loop over select_waiting++, with its check for overflow. */
    method CountWaiting(j: nat)
      requires Valid() && Enabled(Now(), Count(j))
      modifies this`sels, this`socks
      ensures Valid() && Now() == Next(old(Now()), Count(j))
    {
      var k := sels[j].phase.k;
      if k >= |socks| {
        sels := sels[j := sels[j].(phase := Scanning(0))];
      } else if sels[j].Sets(k) {
        var waiting := (socks[k].waiting + 1) % 0x100;
        if waiting == 0 {
          sels := sels[j := sels[j].(phase := Leaving(0, k))];
        } else {
          socks := socks[k := socks[k].(waiting := waiting)];
          sels := sels[j := sels[j].(phase := Joining(k + 1))];
        }
      } else {
        sels := sels[j := sels[j].(phase := Joining(k + 1))];
      }
      forall w {:trigger WalkerAt(w)} | 0 <= w < |walkers| ensures WalkerAt(w) {
        assert old(WalkerAt(w));
      }
    }

    /** The turn of one socket in lwip_selscan. */
    method Selscan(j: nat)
      requires Valid() && Enabled(Now(), Scan(j))
      modifies this`sels
      ensures Valid() && Now() == Next(old(Now()), Scan(j))
    {
      var x := sels[j];
      var k := x.phase.k;
      if k >= |socks| {
        x := x.(phase := if x.nready then Leaving(0, |socks|) else Blocked);
      } else {
        if k in x.rd && (socks[k].lastdata || socks[k].rcv > 0) { x := x.(nready := true); }
        if k in x.wr && socks[k].send { x := x.(nready := true); }
        if k in x.ex && socks[k].err { x := x.(nready := true); }
        x := x.(phase := Scanning(k + 1));
      }
      sels := sels[j := x];
      forall w {:trigger WalkerAt(w)} | 0 <= w < |walkers| ensures WalkerAt(w) {
        assert old(WalkerAt(w));
      }
    }
  }
}
