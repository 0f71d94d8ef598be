/** What the runs of Select mean in terms of the events themselves: when a socket is ready, when a selector is
  * signalled, and when it waits. */
module SelectEvents {
  import opened Words
  import opened Select

  // ---------- the events of a socket ----------

  /** The buffers reported to socket i less those taken back. */
  function Buffers(events: seq<Event>, i: nat): int {
    if events == [] then 0
    else
      var n, e := |events| - 1, events[|events| - 1];
      Buffers(events[..n], i) + if e == Occur(i, RCVPLUS) then 1 else if e == Occur(i, RCVMINUS) then -1 else 0
  }

  /** Event m is the last report on whether socket i can be written to. */
  ghost predicate LastSend(events: seq<Event>, i: nat, m: nat) {
    && m < |events| && (events[m] == Occur(i, SENDPLUS) || events[m] == Occur(i, SENDMINUS))
    && forall n {:trigger events[n]} | m < n < |events| ::
         events[n] != Occur(i, SENDPLUS) && events[n] != Occur(i, SENDMINUS)
  }

  /** Socket i, as it was at the start, has an event of this kind after these events: more buffers reported than
    * taken back; the last report said that it can be written to; an error was reported at any time. */
  ghost predicate ReadyBy(start: Sock, events: seq<Event>, i: nat, k: Kind) {
    match k
    case Rd => start.rcv + Buffers(events, i) > 0
    case Wr =>
      if exists m: nat :: LastSend(events, i, m) then
        exists m: nat :: LastSend(events, i, m) && events[m] == Occur(i, SENDPLUS)
      else start.send
    case Ex => start.err || exists m :: 0 <= m < |events| && events[m] == Occur(i, ERROR)
  }

  /** What one event does to the readiness of one socket. */
  lemma {:induction false} EventIs(s: State, e: Event, i: nat)
    requires Enabled(s, e) && i < |s.socks|
    ensures |Next(s, e).socks| == |s.socks| && |Next(s, e).sels| == |s.sels|
    ensures var a, b := s.socks[i], Next(s, e).socks[i];
            && b.rcv == a.rcv + (if e == Occur(i, RCVPLUS) then 1 else if e == Occur(i, RCVMINUS) then -1 else 0)
            && b.send == (if e == Occur(i, SENDPLUS) then true else if e == Occur(i, SENDMINUS) then false else a.send)
            && b.err == (a.err || e == Occur(i, ERROR))
  {
  }

  /** rcvevent is the number of buffers that wait. */
  lemma {:induction false} BuffersWait(states: seq<State>, events: seq<Event>, k: nat, i: nat)
    requires Run(states, events) && k <= |events| && i < |states[0].socks|
    ensures i < |states[k].socks| && states[k].socks[i].rcv == states[0].socks[i].rcv + Buffers(events[..k], i)
  {
    if k > 0 {
      BuffersWait(states, events, k - 1, i);
      assert Enabled(states[k - 1], events[k - 1]) && states[k] == Next(states[k - 1], events[k - 1]);
      EventIs(states[k - 1], events[k - 1], i);
      assert events[..k][..k - 1] == events[..k - 1];
    }
  }

  /** sendevent is what was reported last. */
  lemma {:induction false} SendIsLast(states: seq<State>, events: seq<Event>, k: nat, i: nat)
    requires Run(states, events) && k <= |events| && i < |states[0].socks|
    ensures i < |states[k].socks| && states[k].socks[i].send == ReadyBy(states[0].socks[i], events[..k], i, Wr)
  {
    var now := events[..k];
    if k > 0 {
      var was, e := events[..k - 1], events[k - 1];
      SendIsLast(states, events, k - 1, i);
      assert Enabled(states[k - 1], e) && states[k] == Next(states[k - 1], e);
      EventIs(states[k - 1], e, i);
      assert now == was + [e] && now[k - 1] == e;
      if e == Occur(i, SENDPLUS) || e == Occur(i, SENDMINUS) {
        assert LastSend(now, i, k - 1);
      } else {
        forall m: nat ensures LastSend(now, i, m) <==> LastSend(was, i, m) { SendKeeps(was, e, i, m); }
        forall m: nat | LastSend(was, i, m) ensures was[m] == now[m] {}
      }
    }
  }

  lemma {:induction false} SendKeeps(was: seq<Event>, e: Event, i: nat, m: nat)
    requires e != Occur(i, SENDPLUS) && e != Occur(i, SENDMINUS)
    ensures LastSend(was + [e], i, m) <==> LastSend(was, i, m)
  {
    var now := was + [e];
    if m < |was| {
      assert now[m] == was[m];
      if LastSend(now, i, m) {
        forall n {:trigger was[n]} | m < n < |was|
          ensures was[n] != Occur(i, SENDPLUS) && was[n] != Occur(i, SENDMINUS)
        {
          assert now[n] == was[n];
        }
      }
    }
  }

  /** errevent is set by an error and never taken back. */
  lemma {:induction false} ErrorStays(states: seq<State>, events: seq<Event>, k: nat, i: nat)
    requires Run(states, events) && k <= |events| && i < |states[0].socks|
    ensures i < |states[k].socks| && states[k].socks[i].err == ReadyBy(states[0].socks[i], events[..k], i, Ex)
  {
    if k > 0 {
      ErrorStays(states, events, k - 1, i);
      assert Enabled(states[k - 1], events[k - 1]) && states[k] == Next(states[k - 1], events[k - 1]);
      EventIs(states[k - 1], events[k - 1], i);
      assert events[..k] == events[..k - 1] + [events[k - 1]] && events[..k][k - 1] == events[k - 1];
    }
  }

  /** A socket is ready in a run exactly if the events say so. */
  lemma {:induction false} ReadyIs(states: seq<State>, events: seq<Event>, k: nat, i: nat, kind: Kind)
    requires Run(states, events) && k <= |events| && i < |states[0].socks|
    ensures i < |states[k].socks|
    ensures states[k].socks[i].Ready(kind) <==> ReadyBy(states[0].socks[i], events[..k], i, kind)
  {
    match kind
    case Rd => BuffersWait(states, events, k, i);
    case Wr => SendIsLast(states, events, k, i);
    case Ex => ErrorStays(states, events, k, i);
  }

  /** No wake-up is lost, in terms of the events: while a selector waits and the events so far make a socket
    * ready that it watches, its semaphore is signalled or an event_callback is on its way to it. */
  lemma {:induction false} NoEventLost(states: seq<State>, events: seq<Event>, k: nat, j: nat, i: nat, kind: Kind)
    requires Run(states, events) && k <= |events| && j < |states[k].sels| && i < |states[0].socks|
    requires states[k].sels[j].phase.Blocked? && states[k].sels[j].Watches(i, kind)
    requires ReadyBy(states[0].socks[i], events[..k], i, kind)
    ensures (states[k].sels[j].signalled && states[k].sels[j].sem == 1) || Coming(states[k], j, i, kind)
  {
    ReadyIs(states, events, k, i, kind);
    NoLostWakeup(states, events, k, j, i, kind);
  }

  // ---------- no wake-up without an event ----------

  /** event_callback starts a call of select_check_waiters if and only if some selector counts on the socket and
    * the event is an error, or makes the socket ready. */
  lemma {:induction false} ChecksIff(states: seq<State>, events: seq<Event>, k: nat, i: nat, evt: Evt)
    requires Run(states, events) && k < |events| && events[k] == Occur(i, evt)
    ensures i < |states[0].socks|
    ensures var before := events[..k]; var start := states[0].socks[i];
            |states[k + 1].walkers| == |states[k].walkers| +
              if (exists j :: 0 <= j < |states[k].sels| && states[k].sels[j].Holds(i))
                 && (evt == ERROR || (evt == RCVPLUS && !ReadyBy(start, before, i, Rd))
                                  || (evt == SENDPLUS && !ReadyBy(start, before, i, Wr))) then 1 else 0
  {
    assert Enabled(states[k], events[k]) && states[k + 1] == Next(states[k], events[k]);
    RunSizes(states, events, k);
    RunOk(states, events, k);
    ReadyIs(states, events, k, i, Rd);
    ReadyIs(states, events, k, i, Wr);
    assert states[k].socks[i].waiting == Holders(states[k].sels, i);
    HeldIff(states[k].sels, i);
  }

  lemma {:induction false} HeldIff(sels: seq<Selector>, i: nat)
    ensures Holders(sels, i) > 0 <==> exists j :: 0 <= j < |sels| && sels[j].Holds(i)
  {
    if sels != [] {
      HeldIff(sels[1..], i);
      if j :| 0 <= j < |sels[1..]| && sels[1..][j].Holds(i) { assert sels[j + 1].Holds(i); }
      if j :| 0 <= j < |sels| && sels[j].Holds(i) { assert j > 0 ==> sels[1..][j - 1].Holds(i); }
    }
  }

  /** Event m is one on the walker's socket, and the walker holds what that socket was ready for then. */
  ghost predicate StartedBy(start: seq<Sock>, events: seq<Event>, w: Walker, m: nat) {
    && m < |events| && events[m].Occur? && events[m].i == w.sock && w.sock < |start|
    && forall kind :: w.Has(kind) <==> ReadyBy(start[w.sock], events[..m + 1], w.sock, kind)
  }

  lemma {:induction false} WalkerStarted(states: seq<State>, events: seq<Event>, k: nat, w: nat) returns (m: nat)
    requires Run(states, events) && k <= |events| && w < |states[k].walkers|
    ensures m < k && StartedBy(states[0].socks, events, states[k].walkers[w], m)
  {
    var s, e := states[k - 1], events[k - 1];
    assert Enabled(s, e) && states[k] == Next(s, e);
    if w < |s.walkers| {
      m := WalkerStarted(states, events, k - 1, w);
      assert StartedBy(states[0].socks, events, s.walkers[w], m);
      WalkerSame(s, e, w);
    } else {
      m := k - 1;
      RunSizes(states, events, k);
      forall kind ensures states[k].walkers[w].Has(kind) <==> ReadyBy(states[0].socks[e.i], events[..k], e.i, kind) {
        ReadyIs(states, events, k, e.i, kind);
      }
    }
  }

  lemma {:induction false} WalkerSame(s: State, e: Event, w: nat)
    requires Enabled(s, e) && w < |s.walkers|
    ensures w < |Next(s, e).walkers|
    ensures Next(s, e).walkers[w].sock == s.walkers[w].sock
    ensures forall kind :: Next(s, e).walkers[w].Has(kind) == s.walkers[w].Has(kind)
  {
    var x, y := s.walkers[w], Next(s, e).walkers[w];
    assert y.r == x.r && y.w == x.w && y.e == x.e;
  }

  /** A selector is only signalled by an event after which a socket was ready for something that it watches. */
  lemma {:induction false} SignalledBy(states: seq<State>, events: seq<Event>, k: nat, j: nat)
    returns (m: nat, i: nat, kind: Kind)
    requires Run(states, events) && k <= |events| && j < |states[k].sels|
    requires states[k].sels[j].signalled && states[k].sels[j].phase != Out
    ensures m < k && events[m].Occur? && events[m].i == i && i < |states[0].socks|
    ensures states[k].sels[j].Watches(i, kind) && ReadyBy(states[0].socks[i], events[..m + 1], i, kind)
  {
    var s, e := states[k - 1], events[k - 1];
    assert Enabled(s, e) && states[k] == Next(s, e);
    SizesKeep(s, e);
    if s.sels[j].signalled && s.sels[j].phase != Out {
      m, i, kind := SignalledBy(states, events, k - 1, j);
    } else {
      assert e.Walk?;
      var w := s.walkers[e.w];
      m := WalkerStarted(states, events, k - 1, e.w);
      i := w.sock;
      kind := if w.r && i in s.sels[j].rd then Rd else if w.w && i in s.sels[j].wr then Wr else Ex;
      assert w.Has(kind);
    }
  }

  // ---------- the second scan ----------

  /** This step scans a socket for selector j and finds it ready for something that the selector watches. */
  ghost predicate Finds(s: State, e: Event, j: nat) {
    && e == Scan(j) && CanScan(s, j)
    && var x, i := s.sels[j], s.sels[j].phase.k;
       && i < |s.socks|
       && exists kind :: x.Watches(i, kind) && (s.socks[i].Ready(kind) || (kind == Rd && s.socks[i].lastdata))
  }

  /** Step m did so in the call of selector j that is under way after k steps. */
  ghost predicate FoundAt(states: seq<State>, events: seq<Event>, m: nat, k: nat, j: nat) {
    && m < k <= |events| && k < |states| && Finds(states[m], events[m], j)
    && forall n {:trigger Links(events[n], j)} | m < n < k :: !Links(events[n], j)
  }

  predicate Links(e: Event, j: nat) {
    e.Link? && e.j == j
  }

  /** The second scan has found something if and only if it met a socket that was ready at its turn. */
  lemma {:induction false} FoundIff(states: seq<State>, events: seq<Event>, k: nat, j: nat)
    requires Run(states, events) && k <= |events| && j < |states[k].sels| && states[k].sels[j].phase != Out
    ensures states[k].sels[j].nready <==> exists m: nat :: FoundAt(states, events, m, k, j)
  {
    var s, e := states[k - 1], events[k - 1];
    assert Enabled(s, e) && states[k] == Next(s, e);
    SizesKeep(s, e);
    FoundNow(s, e, j);
    assert FoundAt(states, events, k - 1, k, j) <==> Finds(s, e, j);
    if !Links(e, j) {
      FoundIff(states, events, k - 1, j);
      forall m: nat | m < k - 1
        ensures FoundAt(states, events, m, k, j) <==> FoundAt(states, events, m, k - 1, j)
      {
        FoundStays(states, events, m, k, j);
      }
      if m: nat :| FoundAt(states, events, m, k, j) {
        assert m == k - 1 || FoundAt(states, events, m, k - 1, j);
      }
      var h := k - 1;
      if m: nat :| FoundAt(states, events, m, h, j) {
        assert m < h && FoundAt(states, events, m, k, j);
      }
    } else {
      forall m: nat ensures !FoundAt(states, events, m, k, j) { assert m < k - 1 ==> Links(events[k - 1], j); }
    }
  }

  lemma {:induction false} FoundStays(states: seq<State>, events: seq<Event>, m: nat, k: nat, j: nat)
    requires m < k - 1 && k <= |events| && k < |states| && !Links(events[k - 1], j)
    ensures FoundAt(states, events, m, k, j) <==> FoundAt(states, events, m, k - 1, j)
  {
  }

  lemma {:induction false} FoundNow(s: State, e: Event, j: nat)
    requires Enabled(s, e) && j < |s.sels| && |Next(s, e).sels| == |s.sels| && Next(s, e).sels[j].phase != Out
    ensures if Links(e, j) then !Next(s, e).sels[j].nready
            else s.sels[j].phase != Out && (Next(s, e).sels[j].nready <==> s.sels[j].nready || Finds(s, e, j))
  {
    if e == Scan(j) {
      var x, i := s.sels[j], s.sels[j].phase.k;
      if i < |s.socks| && x.Sees(i, s.socks[i]) {
        var kind := if i in x.rd && (s.socks[i].lastdata || s.socks[i].rcv > 0) then Rd
                    else if i in x.wr && s.socks[i].send then Wr else Ex;
        assert x.Watches(i, kind) && (s.socks[i].Ready(kind) || (kind == Rd && s.socks[i].lastdata));
      }
    }
  }

  // ---------- how a call goes on ----------

  /** Joining ends early if and only if the next socket the selector sets has 255 others counted on it; scanning
    * comes after all have been counted, and waiting after a scan of all of them that found nothing. */
  lemma {:induction false} PhaseIs(states: seq<State>, events: seq<Event>, k: nat, j: nat)
    requires Run(states, events) && k < |events| && j < |states[k].sels|
    ensures |states[k + 1].sels| == |states[k].sels|
    ensures var s, x, y := states[k], states[k].sels[j], states[k + 1].sels[j];
            && (x.phase.Joining? && y.phase != x.phase ==>
                  y.phase == if x.phase.k >= |s.socks| then Scanning(0)
                             else if x.Sets(x.phase.k) && Holders(s.sels, x.phase.k) == 255 then Leaving(0, x.phase.k)
                             else Joining(x.phase.k + 1))
            && (x.phase.Scanning? && y.phase != x.phase ==>
                  y.phase == if x.phase.k < |s.socks| then Scanning(x.phase.k + 1)
                             else if x.nready then Leaving(0, |s.socks|) else Blocked)
            && (x.phase.Blocked? && y.phase != x.phase ==>
                  y.phase == Leaving(0, |s.socks|)
                  && (events[k] == Timeout(j) || (events[k] == Wake(j) && x.signalled)))
            && (x.phase.Leaving? && y.phase != x.phase ==>
                  y.phase == if x.phase.k < x.phase.limit then Leaving(x.phase.k + 1, x.phase.limit) else Out)
            && (x.phase.Out? && y.phase != x.phase ==> y.phase == Joining(0) && !y.nready && !y.signalled)
  {
    assert Enabled(states[k], events[k]) && states[k + 1] == Next(states[k], events[k]);
    RunOk(states, events, k);
    assert SelOk(states[k], states[k].sels[j]);
    SizesKeep(states[k], events[k]);
    var x := states[k].sels[j];
    if x.phase.Joining? && x.phase.k < |states[k].socks| {
      assert states[k].socks[x.phase.k].waiting == Holders(states[k].sels, x.phase.k);
    }
  }
}
