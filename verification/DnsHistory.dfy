/** What the runs of the resolver mean in terms of the lookups made: which lookup a request slot belongs to, whose
  * callbacks an answer calls, how long an answer is kept, and which one is given up first. */
module DnsHistory {
  import opened Words
  import opened DnsTable
  import DnsName

  // ---------- the lookup a slot belongs to ----------

  datatype Ask = Nobody | Ask(cb: nat, name: seq<byte>)

  /** The last accepted lookup that took slot r. */
  function LastAsk(events: seq<Event>, r: nat): Ask {
    if events == [] then Nobody
    else
      var n, e := |events| - 1, events[|events| - 1];
      if Takes(e, r) then Ask(e.cb, e.name) else LastAsk(events[..n], r)
  }

  predicate Takes(e: Event, r: nat) {
    e.Lookup? && !e.o.Full? && e.o.r == r
  }

  /** Nothing is pending and nothing is known. */
  ghost predicate Fresh(s: State) {
    && (forall i | 0 <= i < |s.table| :: s.table[i].state == UNUSED)
    && (forall r | 0 <= r < |s.requests| :: s.requests[r] == Free)
  }

  predicate Asking(e: Entry) {
    e.state == ASKING || e.state == NEW
  }

  /** Each name is being asked for at most once. */
  ghost predicate NamesApart(table: seq<Entry>) {
    forall i, j | 0 <= i < j < |table| && Asking(table[i]) && Asking(table[j]) ::
        !SameName(table[i].name, table[j].name)
  }

  /** A slot that is taken was taken by this lookup, and waits for an entry of the lookup's name. */
  ghost predicate Belongs(s: State, r: nat, a: Ask)
    requires r < |s.requests|
  {
    s.requests[r].Waiting? ==>
      && a.Ask? && s.requests[r].cb == a.cb && s.requests[r].idx < |s.table|
      && Asking(s.table[s.requests[r].idx]) && SameName(a.name, s.table[s.requests[r].idx].name)
  }

  /** From s to t requests and entries have been given up, and nothing else has changed but the timers. */
  ghost predicate Less(s: State, t: State) {
    && |t.table| == |s.table| && |t.requests| == |s.requests| && t.seqno == s.seqno
    && (forall i {:trigger t.table[i]} | 0 <= i < |s.table| ::
          t.table[i].name == s.table[i].name && t.table[i].seqno == s.table[i].seqno
          && (Asking(t.table[i]) ==> Asking(s.table[i])) && (t.table[i].state == UNUSED <== s.table[i].state == UNUSED))
    && (forall r {:trigger t.requests[r]} | 0 <= r < |s.requests| ::
          t.requests[r] == s.requests[r] || t.requests[r] == Free)
    && (forall r {:trigger t.requests[r]} | 0 <= r < |s.requests| && t.requests[r].Waiting? ::
          t.requests[r].idx < |t.table| && Asking(t.table[t.requests[r].idx]))
  }

  lemma {:induction false} LessKeeps(s: State, t: State)
    requires Less(s, t)
    ensures NamesApart(s.table) ==> NamesApart(t.table)
    ensures forall r, a | 0 <= r < |s.requests| && Belongs(s, r, a) :: Belongs(t, r, a)
  {
  }

  lemma {:induction false} CheckedLess(net: Net, s: State, i: nat, txid: u16)
    requires net.Ok() && Valid(net, s) && i < |s.table| && (s.table[i].state == NEW ==> IdUnused(s.table, txid))
    ensures Less(s, Checked(net, s, i, txid))
  {
    CheckedValid(net, s, i, txid);
    FoundRequests(s, i, false);
    var t := Checked(net, s, i, txid);
    assert EntryOk(net, s.table[i]);
    forall r | 0 <= r < |s.requests| && t.requests[r].Waiting?
      ensures t.requests[r].idx < |t.table| && Asking(t.table[t.requests[r].idx])
    {
      assert RequestOk(t.table, t.requests[r]);
    }
  }

  lemma {:induction false} TickedLess(net: Net, s: State, j: nat)
    requires net.Ok() && Settled(net, s) && j <= |s.table|
    ensures Less(s, Ticked(net, s, j))
    decreases |s.table| - j
  {
    if j < |s.table| {
      SettledChecked(net, s, j);
      CheckedLess(net, s, j, 0);
      TickedLess(net, Checked(net, s, j, 0), j + 1);
      LessTrans(s, Checked(net, s, j, 0), Ticked(net, s, j));
    } else {
      forall r | 0 <= r < |s.requests| && s.requests[r].Waiting?
        ensures s.requests[r].idx < |s.table| && Asking(s.table[s.requests[r].idx])
      {
        assert RequestOk(s.table, s.requests[r]);
      }
    }
  }

  lemma {:induction false} LessTrans(s: State, t: State, u: State)
    requires Less(s, t) && Less(t, u)
    ensures Less(s, u)
  {
    forall i | 0 <= i < |s.table|
      ensures u.table[i].name == s.table[i].name && u.table[i].seqno == s.table[i].seqno
      ensures (Asking(u.table[i]) ==> Asking(s.table[i])) && (u.table[i].state == UNUSED <== s.table[i].state == UNUSED)
    {
      assert t.table[i].name == s.table[i].name;
    }
    forall r | 0 <= r < |s.requests| ensures u.requests[r] == s.requests[r] || u.requests[r] == Free {
      assert t.requests[r] == s.requests[r] || t.requests[r] == Free;
    }
  }

  /** All steps but lookups only give up requests and entries. */
  lemma {:induction false} StepLess(net: Net, s: State, e: Event, t: State)
    requires net.Ok() && Settled(net, s) && Step(net, s, e, t) && !(e.Lookup? && !e.o.Full?)
    ensures Less(s, t)
  {
    StepKeeps(net, s, e, t);
    match e
    case Tick => TickedLess(net, s, 0);
    case Lookup(_, _, _) => AllAsked(net, t);
    case Answer(i, _) =>
      FoundRequests(s, i, true);
      AllAsked(net, t);
    case Refusal(i, _) =>
      FoundRequests(s, i, false);
      AllAsked(net, t);
  }

  lemma {:induction false} AllAsked(net: Net, t: State)
    requires Settled(net, t)
    ensures forall r {:trigger t.requests[r]} | 0 <= r < |t.requests| && t.requests[r].Waiting? ::
              t.requests[r].idx < |t.table| && Asking(t.table[t.requests[r].idx])
  {
    forall r | 0 <= r < |t.requests| && t.requests[r].Waiting?
      ensures t.requests[r].idx < |t.table| && Asking(t.table[t.requests[r].idx])
    {
      assert RequestOk(t.table, t.requests[r]);
    }
  }

  /** Two names are taken for the same exactly if they differ at most in the case of their letters. */
  lemma {:induction false} SameNameIs(a: seq<byte>, b: seq<byte>)
    ensures SameName(a, b) <==>
              |a| == |b| && forall i {:trigger a[i]} | 0 <= i < |a| :: a[i] == b[i] || DnsName.OtherCase(a[i], b[i])
  {
    if |a| == |b| {
      forall i {:trigger a[i]} | 0 <= i < |a|
        ensures DnsName.Lower(a[i]) == DnsName.Lower(b[i]) <==> a[i] == b[i] || DnsName.OtherCase(a[i], b[i])
      {
        DnsName.LowerIs(a[i], b[i]);
      }
    }
  }

  lemma {:induction false} SameNameTwice(a: seq<byte>, b: seq<byte>, c: seq<byte>)
    ensures SameName(a, a)
    ensures SameName(a, b) && SameName(a, c) ==> SameName(b, c)
  {
  }

  /** Slot r holds the callback for an entry of this name that is being asked for. */
  ghost predicate WaitsFor(s: State, r: nat, name: seq<byte>, cb: nat) {
    && r < |s.requests| && s.requests[r].Waiting? && s.requests[r].cb == cb && s.requests[r].idx < |s.table|
    && s.table[s.requests[r].idx].state == ASKING && SameName(name, s.table[s.requests[r].idx].name)
  }

  /** A lookup that is accepted takes the first free slot, and none else, for an entry that is being asked for its
    * name; or, if no server is set, it is called back at once. */
  lemma {:induction false} AcceptedWaits(net: Net, s: State, name: seq<byte>, cb: nat, o: Outcome)
    requires net.Ok() && Settled(net, s) && Chosen(s, name, o) && !o.Full?
    ensures var t := Enqueued(net, s, name, cb, o);
            && FirstFree(s.requests, o.r) && |t.requests| == |s.requests| && |t.table| == |s.table|
            && (forall q | 0 <= q < |s.requests| && q != o.r :: t.requests[q] == s.requests[q])
            && (if o.Placed? && !net.servers[0] then t.requests[o.r] == Free && t.log == s.log + [Call(cb, false)]
                else t.log == s.log && WaitsFor(t, o.r, name, cb))
  {
    SameNameTwice(name, name, name);
    if o.Placed? {
      var f := Filled(s, o.i, o.r, name, cb);
      FilledValid(net, s, o.i, o.r, name, cb);
      FoundRequests(f, o.i, false);
      assert f.requests[o.r] == Waiting(cb, o.i);
      if !net.servers[0] {
        OnlyCall(f.requests, o.i, o.r);
      } else {
        var t := Enqueued(net, s, name, cb, o);
        assert t.requests[o.r] == Waiting(cb, o.i) && t.table[o.i].name == name;
      }
    } else {
      var t := Enqueued(net, s, name, cb, o);
      assert t.requests[o.r] == Waiting(cb, o.i);
    }
  }

  lemma {:induction false} OnlyCall(requests: seq<Request>, i: nat, r: nat)
    requires r < |requests| && requests[r].Waiting? && requests[r].idx == i
    requires forall q | 0 <= q < |requests| && q != r && requests[q].Waiting? :: requests[q].idx != i
    ensures CallsTo(requests, i, false) == [Call(requests[r].cb, false)]
  {
    var n := |requests| - 1;
    if r < n {
      OnlyCall(requests[..n], i, r);
    } else {
      NoneCalled(requests[..n], i);
    }
  }

  lemma {:induction false} NoneCalled(requests: seq<Request>, i: nat)
    requires forall q | 0 <= q < |requests| && requests[q].Waiting? :: requests[q].idx != i
    ensures CallsTo(requests, i, false) == []
  {
    if requests != [] {
      NoneCalled(requests[..|requests| - 1], i);
    }
  }

  /** What holds of names and slots before and after a lookup that is accepted. */
  lemma {:induction false} LookupBelongs(net: Net, s: State, name: seq<byte>, cb: nat, o: Outcome)
    requires net.Ok() && Settled(net, s) && Chosen(s, name, o) && !o.Full? && NamesApart(s.table)
    ensures var t := Enqueued(net, s, name, cb, o);
            && NamesApart(t.table) && |t.requests| == |s.requests| && o.r < |s.requests|
            && Belongs(t, o.r, Ask(cb, name))
            && forall r, a | 0 <= r < |s.requests| && r != o.r && Belongs(s, r, a) :: Belongs(t, r, a)
  {
    var t := Enqueued(net, s, name, cb, o);
    AcceptedWaits(net, s, name, cb, o);
    if o.Placed? {
      var f := Filled(s, o.i, o.r, name, cb);
      FilledValid(net, s, o.i, o.r, name, cb);
      FilledApart(s, o.i, o.r, name, cb);
      CheckedLess(net, f, o.i, o.txid);
      LessKeeps(f, t);
      forall r, a | 0 <= r < |s.requests| && r != o.r && Belongs(s, r, a) ensures Belongs(t, r, a) {
        assert Belongs(f, r, a);
      }
    }
  }

  lemma {:induction false} FilledApart(s: State, i: nat, r: nat, name: seq<byte>, cb: nat)
    requires NamesApart(s.table) && NoDuplicate(s.table, name) && i < |s.table| && r < |s.requests|
    requires forall j | 0 <= j < |s.table| :: s.table[j].state != NEW
    ensures NamesApart(Filled(s, i, r, name, cb).table)
  {
    var f := Filled(s, i, r, name, cb).table;
    forall j, k | 0 <= j < k < |f| && Asking(f[j]) && Asking(f[k]) ensures !SameName(f[j].name, f[k].name) {
      if j == i {
        assert !IsDuplicate(s.table[k], name);
      } else if k == i {
        assert !IsDuplicate(s.table[j], name);
        if SameName(f[j].name, name) {
          SameNameTwice(f[j].name, name, f[j].name);
        }
      }
    }
  }

  /** In every run from the start: the slots that are taken wait for entries of the names that their lookups asked
    * for, with the callbacks that these gave; and no name is being asked for twice. */
  lemma {:induction false} SlotsBelong(net: Net, states: seq<State>, events: seq<Event>, k: nat)
    requires net.Ok() && Run(net, states, events) && Fresh(states[0]) && k <= |events|
    ensures |states[k].requests| == |states[0].requests| && |states[k].table| == |states[0].table|
    ensures NamesApart(states[k].table)
    ensures forall r | 0 <= r < |states[k].requests| :: Belongs(states[k], r, LastAsk(events[..k], r))
  {
    if k > 0 {
      var s, e, t := states[k - 1], events[k - 1], states[k];
      SlotsBelong(net, states, events, k - 1);
      assert Settled(net, s) && Step(net, s, e, t);
      StepKeeps(net, s, e, t);
      assert events[..k][..k - 1] == events[..k - 1];
      if e.Lookup? && !e.o.Full? {
        LookupBelongs(net, s, e.name, e.cb, e.o);
      } else {
        StepLess(net, s, e, t);
        LessKeeps(s, t);
      }
    }
  }

  // ---------- whose callbacks a response calls ----------

  /** The slots of callback cb that wait for entry i. */
  function SlotsFor(requests: seq<Request>, i: nat, cb: nat): set<nat> {
    set r: nat | r < |requests| && requests[r] == Waiting(cb, i)
  }

  lemma {:induction false} CallsCount(requests: seq<Request>, i: nat, answered: bool, cb: nat)
    ensures multiset(CallsTo(requests, i, answered))[Call(cb, answered)] == |SlotsFor(requests, i, cb)|
    ensures multiset(CallsTo(requests, i, answered))[Call(cb, !answered)] == 0
  {
    if requests != [] {
      var n, x := |requests| - 1, requests[|requests| - 1];
      var before, last := CallsTo(requests[..n], i, answered), CallOf(x, i, answered);
      CallsCount(requests[..n], i, answered, cb);
      CallsAdd(before, last, Call(cb, answered));
      CallsAdd(before, last, Call(cb, !answered));
      assert CallsTo(requests, i, answered) == before + last;
      SlotsAdd(requests, i, cb);
      CallOfCount(x, i, answered, cb);
    }
  }

  lemma {:induction false} CallOfCount(x: Request, i: nat, answered: bool, cb: nat)
    ensures multiset(CallOf(x, i, answered))[Call(cb, answered)] == if x == Waiting(cb, i) then 1 else 0
    ensures multiset(CallOf(x, i, answered))[Call(cb, !answered)] == 0
  {
  }

  lemma {:induction false} SlotsAdd(requests: seq<Request>, i: nat, cb: nat)
    requires requests != []
    ensures var n := |requests| - 1;
            |SlotsFor(requests, i, cb)| ==
            |SlotsFor(requests[..n], i, cb)| + if requests[n] == Waiting(cb, i) then 1 else 0
  {
    var n := |requests| - 1;
    var was, now := SlotsFor(requests[..n], i, cb), SlotsFor(requests, i, cb);
    assert now == if requests[n] == Waiting(cb, i) then was + {n} else was;
  }

  /** The slots of callback cb whose lookups asked for the name of entry i. */
  function Namesakes(s: State, events: seq<Event>, i: nat, cb: nat): set<nat>
    requires i < |s.table|
  {
    set r: nat | r < |s.requests| && s.requests[r].Waiting? && s.requests[r].cb == cb
                 && LastAsk(events, r).Ask? && SameName(LastAsk(events, r).name, s.table[i].name)
  }

  /** The response to entry i that event e is has ended its lookups, with an address or without. */
  ghost predicate Ends(e: Event, t: State, i: nat, answered: bool) {
    && i < |t.table|
    && if answered then e.Answer? && e.i == i else e.Refusal? && e.i == i && !Asking(t.table[i])
  }

  /** In every run from the start: a response that ends a lookup calls the callbacks of exactly those lookups that
    * asked for the name of the entry, each once for every slot it has, and leaves the other slots alone. */
  lemma {:induction false} ResponseCalls(net: Net, states: seq<State>, events: seq<Event>, k: nat, i: nat,
                                         answered: bool, cb: nat)
    requires net.Ok() && Run(net, states, events) && Fresh(states[0]) && k < |events|
    requires Ends(events[k], states[k + 1], i, answered)
    ensures var s, t := states[k], states[k + 1];
            && i < |s.table| && |t.requests| == |s.requests|
            && multiset(t.log)[Call(cb, answered)] ==
               multiset(s.log)[Call(cb, answered)] + |Namesakes(s, events[..k], i, cb)|
            && multiset(t.log)[Call(cb, !answered)] == multiset(s.log)[Call(cb, !answered)]
            && forall r | 0 <= r < |s.requests| && s.requests[r].Waiting? && s.requests[r].cb == cb ::
                 t.requests[r] == if r in Namesakes(s, events[..k], i, cb) then Free else s.requests[r]
  {
    var s, t := states[k], states[k + 1];
    assert Settled(net, s) && Step(net, s, events[k], t);
    StepKeeps(net, s, events[k], t);
    SlotsBelong(net, states, events, k);
    NamesakesWait(net, s, events[..k], i, cb);
    CallsCount(s.requests, i, answered, cb);
    FoundRequests(s, i, answered);
    EndsFound(net, s, events[k], t, i, answered);
    CallsAdd(s.log, CallsTo(s.requests, i, answered), Call(cb, answered));
    CallsAdd(s.log, CallsTo(s.requests, i, answered), Call(cb, !answered));
  }

  lemma {:induction false} EndsFound(net: Net, s: State, e: Event, t: State, i: nat, answered: bool)
    requires net.Ok() && Settled(net, s) && Step(net, s, e, t) && Ends(e, t, i, answered)
    ensures i < |s.table| && t.log == Found(s, i, answered).log && t.requests == Found(s, i, answered).requests
  {
  }

  lemma {:induction false} NamesakesWait(net: Net, s: State, events: seq<Event>, i: nat, cb: nat)
    requires NamesApart(s.table) && i < |s.table| && Asking(s.table[i])
    requires forall r | 0 <= r < |s.requests| :: Belongs(s, r, LastAsk(events, r))
    ensures Namesakes(s, events, i, cb) == SlotsFor(s.requests, i, cb)
  {
    forall r: nat | r < |s.requests| && s.requests[r].Waiting? && s.requests[r].cb == cb
      ensures r in Namesakes(s, events, i, cb) <==> s.requests[r].idx == i
    {
      var a, j := LastAsk(events, r), s.requests[r].idx;
      assert Belongs(s, r, a);
      if SameName(a.name, s.table[i].name) && j != i {
        SameNameTwice(a.name, s.table[i].name, s.table[j].name);
        SameNameTwice(a.name, s.table[j].name, s.table[i].name);
        assert false;
      }
    }
  }

  /** A response whose flags report an error moves the lookup on to the next server, if that is set, as if the
    * server had been silent to the end: no callback is called and every tick left to this server is saved. Any
    * other response without an address ends the lookup, and so does one from the last server. */
  lemma {:induction false} RefusalIs(net: Net, s: State, i: nat, error: bool, t: State)
    requires net.Ok() && Settled(net, s) && Step(net, s, Refusal(i, error), t)
    ensures i < |t.table| && |t.table| == |s.table| && t.table == s.table[i := t.table[i]]
    ensures var was, now := s.table[i], t.table[i];
            var moves := error && was.server + 1 < |net.servers| && net.servers[was.server + 1];
            && (moves <==> now.state == ASKING) && (!moves <==> now.state == UNUSED)
            && now.name == was.name && now.txid == was.txid
            && (moves ==> t.requests == s.requests && t.log == s.log
                          && now.server == was.server + 1
                          && Left(net, now) == ServerTicks(net) * Servers(net.servers, was.server + 1))
            && (!moves ==> forall r | 0 <= r < |s.requests| :: !(r < |t.requests| && t.requests[r].Waiting?
                                                                && t.requests[r].idx == i))
  {
    FoundRequests(s, i, false);
    assert EntryOk(net, s.table[i]);
    var was := s.table[i];
    if error && net.Backup(was.server) {
      var p, k := ServerTicks(net), Servers(net.servers, was.server + 2);
      assert Servers(net.servers, was.server + 1) == 1 + k;
      assert p * (1 + k) == p + p * k;
    }
  }

  // ---------- how long an answer is kept ----------

  /** Entry i is an answer that is kept for n more ticks; or it is not kept any more. */
  ghost predicate Keeps(s: State, i: nat, name: seq<byte>, n: nat) {
    i < |s.table| && if n > 0 then s.table[i].state == DONE && s.table[i].ttl == n && s.table[i].name == name
                     else s.table[i].state == UNUSED
  }

  lemma {:induction false} CheckedKeeps(net: Net, s: State, j: nat, i: nat, name: seq<byte>, n: nat)
    requires net.Ok() && Settled(net, s) && j < |s.table| && Keeps(s, i, name, n)
    ensures Settled(net, Checked(net, s, j, 0)) && |Checked(net, s, j, 0).table| == |s.table|
    ensures Keeps(Checked(net, s, j, 0), i, name, if j == i && n > 0 then n - 1 else n)
  {
    SettledChecked(net, s, j);
    CheckedValid(net, s, j, 0);
  }

  lemma {:induction false} TickedKeeps(net: Net, s: State, j: nat, i: nat, name: seq<byte>, n: nat)
    requires net.Ok() && Settled(net, s) && j <= |s.table| && Keeps(s, i, name, n)
    ensures Keeps(Ticked(net, s, j), i, name, if j <= i && n > 0 then n - 1 else n)
    decreases |s.table| - j
  {
    if j < |s.table| {
      CheckedKeeps(net, s, j, i, name, n);
      TickedKeeps(net, Checked(net, s, j, 0), j + 1, i, name, if j == i && n > 0 then n - 1 else n);
    }
  }

  /** This is no lookup that is given entry i. */
  predicate Spares(e: Event, i: nat) {
    e.Lookup? && e.o.Placed? ==> e.o.i != i
  }

  lemma {:induction false} StepKept(net: Net, s: State, e: Event, t: State, i: nat, name: seq<byte>, n: nat)
    requires net.Ok() && Settled(net, s) && Step(net, s, e, t) && Spares(e, i) && Keeps(s, i, name, n)
    ensures Keeps(t, i, name, if e.Tick? && n > 0 then n - 1 else n)
  {
    match e
    case Tick => TickedKeeps(net, s, 0, i, name, n);
    case Lookup(nm, cb, o) =>
      if o.Placed? {
        FilledValid(net, s, o.i, o.r, nm, cb);
        CheckedValid(net, Filled(s, o.i, o.r, nm, cb), o.i, o.txid);
      }
    case Answer(_, _) =>
    case Refusal(j, error) => RefusalIs(net, s, j, error, t);
  }

  lemma {:induction false} RunKeeps(net: Net, states: seq<State>, events: seq<Event>, i: nat, name: seq<byte>, n: nat)
    requires net.Ok() && Run(net, states, events) && Keeps(states[0], i, name, n)
    requires forall k | 0 <= k < |events| :: Spares(events[k], i)
    ensures Keeps(states[|events|], i, name, if Ticks(events) < n then n - Ticks(events) else 0)
    decreases |events|
  {
    if events != [] {
      assert Step(net, states[0], events[0], states[1]) && Spares(events[0], i);
      StepKept(net, states[0], events[0], states[1], i, name, n);
      RunKeeps(net, states[1..], events[1..], i, name, if events[0].Tick? && n > 0 then n - 1 else n);
    }
  }

  /** An answer is kept for its time to live, but no more than a week of ticks, and given up then: with a time to
    * live of 0 at once. Until then it only goes if a lookup takes its entry. */
  lemma {:induction false} AnswerLasts(net: Net, states: seq<State>, events: seq<Event>, i: nat, ttl: u32)
    requires net.Ok() && Run(net, states, events) && events != [] && events[0] == Answer(i, ttl)
    requires forall k | 1 <= k < |events| :: Spares(events[k], i)
    ensures i < |states[0].table| && i < |states[|events|].table|
    ensures var e, ticks := states[|events|].table[i], Ticks(events[1..]);
            if ticks < ttl && ticks < 7 * 24 * 60 * 60 then e.state == DONE && e.name == states[0].table[i].name
            else e.state == UNUSED
  {
    assert Step(net, states[0], events[0], states[1]);
    var n := if ttl < MAX_TTL then ttl else MAX_TTL;
    RunKeeps(net, states[1..], events[1..], i, states[0].table[i].name, n);
  }

  // ---------- which answer is given up first ----------

  /** How many lookups have been given an entry. */
  function Places(events: seq<Event>): nat {
    if events == [] then 0
    else Places(events[..|events| - 1]) + if GivesEntry(events[|events| - 1]) then 1 else 0
  }

  predicate GivesEntry(e: Event) {
    e.Lookup? && e.o.Placed?
  }

  /** How many of them are behind the past ones, in 8 bits. */
  function Since(now: seq<Event>, past: seq<Event>): u8 {
    (Places(now) - Places(past)) % 0x100
  }

  /** Lookup m was the last one to be given entry i. */
  ghost predicate GivenAt(events: seq<Event>, i: nat, m: nat) {
    && m < |events| && events[m].Lookup? && !Spares(events[m], i)
    && forall n {:trigger events[n]} | m < n < |events| :: Spares(events[n], i)
  }

  lemma {:induction false} StepSeqno(net: Net, s: State, e: Event, t: State)
    requires net.Ok() && Settled(net, s) && Step(net, s, e, t)
    ensures |t.table| == |s.table|
    ensures t.seqno == if GivesEntry(e) then (s.seqno + 1) % 0x100 else s.seqno
    ensures forall i | 0 <= i < |s.table| ::
              if Spares(e, i) then t.table[i].seqno == s.table[i].seqno
                                   && (s.table[i].state == UNUSED ==> t.table[i].state == UNUSED)
              else t.table[i].seqno == s.seqno
  {
    StepKeeps(net, s, e, t);
    if GivesEntry(e) {
      var f := Filled(s, e.o.i, e.o.r, e.name, e.cb);
      FilledValid(net, s, e.o.i, e.o.r, e.name, e.cb);
      CheckedLess(net, f, e.o.i, e.o.txid);
      CheckedValid(net, f, e.o.i, e.o.txid);
    } else if !(e.Lookup? && !e.o.Full?) {
      StepLess(net, s, e, t);
    }
  }

  /** The age of an entry is the number of lookups that were given entries since it was given its own, that one
    * included, as far as 8 bits can tell. */
  lemma {:induction false} AgeIs(net: Net, states: seq<State>, events: seq<Event>, k: nat, i: nat) returns (m: nat)
    requires net.Ok() && Run(net, states, events) && Fresh(states[0]) && k <= |events|
    requires i < |states[k].table| && states[k].table[i].state != UNUSED
    ensures m < k && GivenAt(events[..k], i, m)
    ensures Age(states[k].seqno, states[k].table[i]) == Since(events[..k], events[..m])
  {
    m := Given(net, states, events, k, i);
    GivenSeqno(net, states, events, k, i, m);
    AgeMod(states[0].seqno, events[..k], events[..m], states[k].seqno, states[k].table[i]);
  }

  lemma {:induction false} SinceMod(seqno: u8, now: seq<Event>, past: seq<Event>)
    ensures (SeqnoAfter(seqno, now) - SeqnoAfter(seqno, past)) % 0x100 == (Places(now) - Places(past)) % 0x100
  {
    SeqnoCounts(seqno, now);
    SeqnoCounts(seqno, past);
    SubMod(seqno + Places(now), seqno + Places(past));
  }

  lemma {:induction false} SubMod(x: int, y: int)
    ensures (x % 0x100 - y % 0x100) % 0x100 == (x - y) % 0x100
  {
  }

  lemma {:induction false} RunStep(net: Net, states: seq<State>, events: seq<Event>, k: nat)
    requires net.Ok() && Run(net, states, events) && k < |events|
    ensures states[k + 1].seqno == if GivesEntry(events[k]) then (states[k].seqno + 1) % 0x100 else states[k].seqno
    ensures |states[k + 1].table| == |states[k].table|
    ensures forall i | 0 <= i < |states[k].table| ::
              if Spares(events[k], i) then states[k + 1].table[i].seqno == states[k].table[i].seqno
                                   && (states[k].table[i].state == UNUSED ==> states[k + 1].table[i].state == UNUSED)
              else states[k + 1].table[i].seqno == states[k].seqno
  {
    StepSeqno(net, states[k], events[k], states[k + 1]);
  }

  /** dns_seqno behind these events. */
  function SeqnoAfter(seqno: u8, events: seq<Event>): u8 {
    if events == [] then seqno
    else
      var was := SeqnoAfter(seqno, events[..|events| - 1]);
      if GivesEntry(events[|events| - 1]) then (was + 1) % 0x100 else was
  }

  lemma {:induction false} SeqnoCounts(seqno: u8, events: seq<Event>)
    ensures SeqnoAfter(seqno, events) == (seqno + Places(events)) % 0x100
  {
    if events != [] {
      SeqnoCounts(seqno, events[..|events| - 1]);
    }
  }

  lemma {:induction false} SeqnoIs(net: Net, states: seq<State>, events: seq<Event>, k: nat)
    requires net.Ok() && Run(net, states, events) && k <= |events|
    ensures states[k].seqno == SeqnoAfter(states[0].seqno, events[..k])
  {
    if k > 0 {
      SeqnoIs(net, states, events, k - 1);
      RunStep(net, states, events, k - 1);
      assert events[..k][..k - 1] == events[..k - 1] && events[..k][k - 1] == events[k - 1];
    }
  }

  /** The lookup that entry i was last given to. */
  lemma {:induction false} Given(net: Net, states: seq<State>, events: seq<Event>, k: nat, i: nat) returns (m: nat)
    requires net.Ok() && Run(net, states, events) && Fresh(states[0]) && k <= |events|
    requires i < |states[k].table| && states[k].table[i].state != UNUSED
    ensures m < k && GivenAt(events[..k], i, m)
    ensures states[k].table[i].seqno == states[m].seqno
    decreases k
  {
    assert k > 0;
    RunStep(net, states, events, k - 1);
    if Spares(events[k - 1], i) {
      m := Given(net, states, events, k - 1, i);
      GivenStays(events, k - 1, i, m);
    } else {
      m := k - 1;
    }
  }

  lemma {:induction false} GivenStays(events: seq<Event>, k: nat, i: nat, m: nat)
    requires m < k < |events| && GivenAt(events[..k], i, m) && Spares(events[k], i)
    ensures GivenAt(events[..k + 1], i, m)
  {
    forall n {:trigger events[..k + 1][n]} | m < n < k + 1 ensures Spares(events[..k + 1][n], i) {
      assert n < k ==> events[..k][n] == events[n];
    }
    assert events[..k][m] == events[m];
  }

  lemma {:induction false} GivenOnce(events: seq<Event>, i: nat, m: nat, n: nat)
    requires GivenAt(events, i, m) && GivenAt(events, i, n)
    ensures m == n
  {
  }

  lemma {:induction false} PlacesGrow(events: seq<Event>, m: nat, n: nat)
    requires m <= n <= |events|
    ensures Places(events[..m]) <= Places(events[..n])
    ensures m < n && GivesEntry(events[m]) ==> Places(events[..m]) < Places(events[..n])
    decreases n
  {
    if m < n {
      PlacesGrow(events, m, n - 1);
      assert events[..n][..n - 1] == events[..n - 1];
    }
  }

  /** A lookup that takes an entry that holds an answer takes, as far as the ages are exact, the one that was asked
    * for first; and it does so only if no entry is unused. */
  lemma {:induction false} EvictsOldest(net: Net, states: seq<State>, events: seq<Event>, k: nat, i: nat, mi: nat,
                                        j: nat, mj: nat)
    requires net.Ok() && Run(net, states, events) && Fresh(states[0]) && k < |events|
    requires GivesEntry(events[k]) && events[k].o.i == i < |states[k].table| && states[k].table[i].state == DONE
    requires j < |states[k].table| && states[k].table[j].state != ASKING
    requires GivenAt(events[..k], i, mi) && GivenAt(events[..k], j, mj)
    requires Places(events[..k]) < Places(events[..mi]) + 0x100 && Places(events[..k]) < Places(events[..mj]) + 0x100
    ensures states[k].table[j].state == DONE && mi <= mj
  {
    var s := states[k];
    assert Settled(net, s) && Step(net, s, events[k], states[k + 1]) && Picked(s.table, s.seqno, i);
    assert s.table[j].state == DONE && Age(s.seqno, s.table[j]) <= Age(s.seqno, s.table[i]);
    ExactAge(net, states, events, k, i, mi);
    ExactAge(net, states, events, k, j, mj);
    assert events[..k][mi] == events[mi] && events[..k][mj] == events[mj];
    if mj < mi {
      PlacesGrow(events, mj, mi);
    }
  }

  lemma {:induction false} ExactAge(net: Net, states: seq<State>, events: seq<Event>, k: nat, i: nat, m: nat)
    requires net.Ok() && Run(net, states, events) && Fresh(states[0]) && k <= |events|
    requires i < |states[k].table| && states[k].table[i].state != UNUSED && GivenAt(events[..k], i, m)
    requires Places(events[..k]) < Places(events[..m]) + 0x100
    ensures Age(states[k].seqno, states[k].table[i]) == Places(events[..k]) - Places(events[..m])
  {
    PlacesGrow(events, m, k);
    GivenSeqno(net, states, events, k, i, m);
    AgeExact(states[0].seqno, events[..k], events[..m], states[k].seqno, states[k].table[i]);
  }

  lemma {:induction false} AgeMod(seqno: u8, now: seq<Event>, past: seq<Event>, seqno': u8, e: Entry)
    requires seqno' == SeqnoAfter(seqno, now) && e.seqno == SeqnoAfter(seqno, past)
    ensures Age(seqno', e) == Since(now, past)
  {
    SinceMod(seqno, now, past);
  }

  lemma {:induction false} AgeExact(seqno: u8, now: seq<Event>, past: seq<Event>, seqno': u8, e: Entry)
    requires seqno' == SeqnoAfter(seqno, now) && e.seqno == SeqnoAfter(seqno, past)
    requires 0 <= Places(now) - Places(past) < 0x100
    ensures Age(seqno', e) == Places(now) - Places(past)
  {
    SinceMod(seqno, now, past);
    SmallMod(Places(now) - Places(past));
  }

  lemma {:induction false} GivenSeqno(net: Net, states: seq<State>, events: seq<Event>, k: nat, i: nat, m: nat)
    requires net.Ok() && Run(net, states, events) && Fresh(states[0]) && k <= |events|
    requires i < |states[k].table| && states[k].table[i].state != UNUSED && GivenAt(events[..k], i, m)
    ensures states[k].seqno == SeqnoAfter(states[0].seqno, events[..k])
    ensures states[k].table[i].seqno == SeqnoAfter(states[0].seqno, events[..m])
  {
    var n := Given(net, states, events, k, i);
    GivenOnce(events[..k], i, m, n);
    SeqnoIs(net, states, events, k);
    SeqnoIs(net, states, events, m);
  }

  lemma {:induction false} SmallMod(x: int)
    requires 0 <= x < 0x100
    ensures x % 0x100 == x
  {
  }
}
