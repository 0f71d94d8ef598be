/** The resolver's tables as values: what every operation of core/dns.c does to them. */
module DnsTable {
  import opened Words
  import DnsName

  const MAX_TTL: u32 := 604800

  datatype EntryState = UNUSED | NEW | ASKING | DONE

  datatype Entry = Entry(state: EntryState, ttl: u32, txid: u16, server: u8, tmr: u8, retries: u8, seqno: u8,
                         name: seq<byte>)

  /** A request slot: free, or a callback with the table entry it waits for. */
  datatype Request = Free | Waiting(cb: nat, idx: nat)

  /** found(name, address) was called; an unanswered call passes NULL. */
  datatype Call = Call(cb: nat, answered: bool)

  /** Which of the DNS_MAX_SERVERS addresses are set, and DNS_MAX_RETRIES. */
  datatype Net = Net(servers: seq<bool>, maxRetries: nat) {
    ghost predicate Ok() {
      1 <= |servers| <= 255 && 1 <= maxRetries <= 255
    }

    /** dns_backupserver_available. */
    predicate Backup(server: nat) {
      server + 1 < |servers| && servers[server + 1]
    }
  }

  datatype State = State(table: seq<Entry>, requests: seq<Request>, seqno: u8, log: seq<Call>)

  // ---------- calling back ----------

  /** The calls made for an entry, in the order of the request slots. */
  function CallsTo(requests: seq<Request>, idx: nat, answered: bool): seq<Call> {
    if requests == [] then []
    else
      var r, n := requests[|requests| - 1], |requests| - 1;
      CallsTo(requests[..n], idx, answered) + CallOf(r, idx, answered)
  }

  function CallOf(r: Request, idx: nat, answered: bool): seq<Call> {
    if r.Waiting? && r.idx == idx then [Call(r.cb, answered)] else []
  }

  function Drop(r: Request, idx: nat): Request {
    if r.Waiting? && r.idx == idx then Free else r
  }

  function Dropped(requests: seq<Request>, idx: nat): seq<Request> {
    seq(|requests|, i requires 0 <= i < |requests| => Drop(requests[i], idx))
  }

  function Found(s: State, i: nat, answered: bool): State {
    s.(requests := Dropped(s.requests, i), log := s.log + CallsTo(s.requests, i, answered))
  }

  /** How many slots hold a callback. */
  function Pending(requests: seq<Request>, cb: nat): nat {
    if requests == [] then 0
    else
      var r, n := requests[|requests| - 1], |requests| - 1;
      Pending(requests[..n], cb) + if r.Waiting? && r.cb == cb then 1 else 0
  }

  /** How often a callback has been called. */
  function Called(log: seq<Call>, cb: nat): nat {
    multiset(log)[Call(cb, true)] + multiset(log)[Call(cb, false)]
  }

  /** Calling an entry's callbacks empties their slots and no others; nothing is called that was not pending. */
  lemma {:induction false} CallsConserve(requests: seq<Request>, idx: nat, answered: bool, cb: nat)
    ensures multiset(CallsTo(requests, idx, answered))[Call(cb, answered)] + Pending(Dropped(requests, idx), cb) ==
        Pending(requests, cb)
    ensures multiset(CallsTo(requests, idx, answered))[Call(cb, !answered)] == 0
  {
    if requests != [] {
      var n, x := |requests| - 1, requests[|requests| - 1];
      var before, last := CallsTo(requests[..n], idx, answered), CallOf(x, idx, answered);
      CallsConserve(requests[..n], idx, answered, cb);
      CallsAdd(before, last, Call(cb, answered));
      CallsAdd(before, last, Call(cb, !answered));
      assert CallsTo(requests, idx, answered) == before + last;
      CallsOne(x, idx, answered, cb);
      var dropped := Dropped(requests, idx);
      assert Pending(dropped, cb) == Pending(Dropped(requests[..n], idx), cb) + Holds(Drop(x, idx), cb) by {
        assert dropped[..n] == Dropped(requests[..n], idx) && dropped[n] == Drop(x, idx);
      }
    }
  }

  function Holds(r: Request, cb: nat): nat {
    if r.Waiting? && r.cb == cb then 1 else 0
  }

  lemma {:induction false} CallsOne(r: Request, idx: nat, answered: bool, cb: nat)
    ensures multiset(CallOf(r, idx, answered))[Call(cb, answered)] + Holds(Drop(r, idx), cb) == Holds(r, cb)
    ensures multiset(CallOf(r, idx, answered))[Call(cb, !answered)] == 0
  {
  }

  lemma {:induction false} CallsAdd(a: seq<Call>, b: seq<Call>, c: Call)
    ensures multiset(a + b)[c] == multiset(a)[c] + multiset(b)[c]
  {
  }

  lemma {:induction false} FoundConserves(s: State, i: nat, answered: bool, cb: nat)
    ensures var t := Found(s, i, answered);
            && Called(t.log, cb) + Pending(t.requests, cb) == Called(s.log, cb) + Pending(s.requests, cb)
            && multiset(t.log)[Call(cb, !answered)] == multiset(s.log)[Call(cb, !answered)]
  {
    CallsConserve(s.requests, i, answered, cb);
    assert multiset(s.log + CallsTo(s.requests, i, answered)) ==
        multiset(s.log) + multiset(CallsTo(s.requests, i, answered));
  }

  lemma {:induction false} PendingSet(requests: seq<Request>, r: nat, x: Request, cb: nat)
    requires r < |requests| && requests[r].Free?
    ensures Pending(requests[r := x], cb) == Pending(requests, cb) + if x.Waiting? && x.cb == cb then 1 else 0
  {
    var n := |requests| - 1;
    if r < n {
      PendingSet(requests[..n], r, x, cb);
      assert requests[r := x][..n] == requests[..n][r := x];
    } else {
      assert requests[r := x][..n] == requests[..n];
    }
  }

  lemma {:induction false} PendingSome(requests: seq<Request>, r: nat)
    requires r < |requests| && requests[r].Waiting?
    ensures Pending(requests, requests[r].cb) >= 1
  {
    var n := |requests| - 1;
    if r < n {
      PendingSome(requests[..n], r);
    }
  }

  // ---------- the state machine of one entry ----------

  /** dns_check_entry for an entry that has been sent: what becomes of it, and whether it has timed out. */
  function Asked(net: Net, e: Entry): (r: (Entry, bool))
    requires e.tmr >= 1 && e.retries < 255 && e.server < 255
  {
    if e.tmr > 1 then (e.(tmr := e.tmr - 1), false)
    else if e.retries + 1 < net.maxRetries then (e.(retries := e.retries + 1, tmr := e.retries + 1), false)
    else if net.Backup(e.server) then (e.(server := e.server + 1, tmr := 1, retries := 0), false)
    else (e.(retries := e.retries + 1, tmr := 0), true)
  }

  function TimedOut(s: State, i: nat, e: Entry): State
    requires i < |s.table|
  {
    Found(s, i, false).(table := s.table[i := e.(state := UNUSED)])
  }

  /** dns_check_entry; txid is what dns_create_txid yields. */
  function Checked(net: Net, s: State, i: nat, txid: u16): State
    requires net.Ok() && Valid(net, s) && i < |s.table|
  {
    var e := s.table[i];
    match e.state
    case UNUSED => s
    case NEW =>
      var e1 := e.(txid := txid, state := ASKING, server := 0, tmr := 1, retries := 0);
      if net.servers[0] then s.(table := s.table[i := e1]) else TimedOut(s, i, e1)
    case ASKING =>
      assert EntryOk(net, e);
      var (e1, out) := Asked(net, e);
      if out then TimedOut(s, i, e1) else s.(table := s.table[i := e1])
    case DONE =>
      var ttl := if e.ttl == 0 then 0 else e.ttl - 1;
      s.(table := s.table[i := e.(ttl := ttl, state := if ttl == 0 then UNUSED else DONE)])
  }

  // ---------- the invariant ----------

  /** How many servers in a row are set, from j on. */
  function Servers(servers: seq<bool>, j: nat): nat
    decreases |servers| - j
  {
    if j < |servers| && servers[j] then 1 + Servers(servers, j + 1) else 0
  }

  /** A pending entry's timer runs and is at most its retry count; all servers up to the asked one are set. */
  ghost predicate EntryOk(net: Net, e: Entry) {
    e.state == ASKING ==>
      && 1 <= e.tmr <= (if e.retries == 0 then 1 else e.retries) && e.retries < net.maxRetries <= 255
      && e.server < |net.servers| <= 255 && net.servers[e.server]
  }

  ghost predicate RequestOk(table: seq<Entry>, r: Request) {
    r.Waiting? ==> r.idx < |table| && (table[r.idx].state == ASKING || table[r.idx].state == NEW)
  }

  ghost predicate Valid(net: Net, s: State) {
    && |s.table| <= 255 && |s.requests| <= 255
    && (forall i {:trigger s.table[i]} | 0 <= i < |s.table| :: EntryOk(net, s.table[i]))
    && (forall r {:trigger s.requests[r]} | 0 <= r < |s.requests| :: RequestOk(s.table, s.requests[r]))
    && UniqueIds(s.table)
  }

  ghost predicate UniqueIds(table: seq<Entry>) {
    forall i, j | 0 <= i < j < |table| && table[i].state == ASKING && table[j].state == ASKING ::
        table[i].txid != table[j].txid
  }

  predicate IdUnused(table: seq<Entry>, txid: u16) {
    forall i | 0 <= i < |table| && table[i].state == ASKING :: table[i].txid != txid
  }

  /** Between operations no entry is NEW: whoever makes one sends its query at once. */
  ghost predicate Settled(net: Net, s: State) {
    Valid(net, s) && forall i | 0 <= i < |s.table| :: s.table[i].state != NEW
  }

  lemma {:induction false} FoundRequests(s: State, i: nat, answered: bool)
    ensures |Found(s, i, answered).requests| == |s.requests|
    ensures forall r | 0 <= r < |s.requests| :: Found(s, i, answered).requests[r] == Drop(s.requests[r], i)
  {
  }

  /** Checking an entry keeps the invariant and leaves it settled. */
  lemma {:induction false} CheckedValid(net: Net, s: State, i: nat, txid: u16)
    requires net.Ok() && Valid(net, s) && i < |s.table| && (s.table[i].state == NEW ==> IdUnused(s.table, txid))
    ensures Valid(net, Checked(net, s, i, txid)) && |Checked(net, s, i, txid).table| == |s.table|
    ensures Checked(net, s, i, txid).table[i].state != NEW
    ensures forall j | 0 <= j < |s.table| && j != i :: Checked(net, s, i, txid).table[j] == s.table[j]
  {
    var e, t := s.table[i], Checked(net, s, i, txid);
    assert EntryOk(net, e);
    FoundRequests(s, i, false);
    assert t.table == s.table[i := t.table[i]];
    assert EntryOk(net, t.table[i]);
    forall r {:trigger t.requests[r]} | 0 <= r < |t.requests| ensures RequestOk(t.table, t.requests[r]) {
      assert RequestOk(s.table, s.requests[r]);
    }
  }

  // ---------- how long an unanswered lookup lasts ----------

  /** The ticks until the last retry, when the retry count has just become r. */
  function RetryTicks(maxRetries: nat, r: nat): nat
    decreases maxRetries - r
  {
    if r >= maxRetries then 0 else r + RetryTicks(maxRetries, r + 1)
  }

  lemma {:induction false} RetryTicksIs(maxRetries: nat, r: nat)
    requires r <= maxRetries
    ensures 2 * RetryTicks(maxRetries, r) == maxRetries * (maxRetries - 1) - r * (r - 1)
    decreases maxRetries - r
  {
    if r < maxRetries {
      RetryTicksIs(maxRetries, r + 1);
    }
  }

  /** The ticks spent on one silent server. */
  function ServerTicks(net: Net): nat {
    1 + RetryTicks(net.maxRetries, 1)
  }

  lemma {:induction false} ServerTicksIs(net: Net)
    requires net.maxRetries >= 1
    ensures ServerTicks(net) == 1 + net.maxRetries * (net.maxRetries - 1) / 2
  {
    RetryTicksIs(net.maxRetries, 1);
  }

  /** The ticks left to an entry that gets no answer. */
  function Left(net: Net, e: Entry): nat {
    e.tmr + RetryTicks(net.maxRetries, e.retries + 1) + ServerTicks(net) * Servers(net.servers, e.server + 1)
  }

  lemma {:induction false} LeftFalls(net: Net, e: Entry)
    requires net.Ok() && EntryOk(net, e) && e.state == ASKING
    ensures Asked(net, e).1 <==> Left(net, e) == 1
    ensures !Asked(net, e).1 ==> Left(net, Asked(net, e).0) == Left(net, e) - 1
  {
    var p, k := ServerTicks(net), Servers(net.servers, e.server + 2);
    if e.tmr == 1 && e.retries + 1 == net.maxRetries && net.Backup(e.server) {
      assert Servers(net.servers, e.server + 1) == 1 + k;
      assert p * (1 + k) == p + p * k;
    } else if e.tmr == 1 && e.retries + 1 == net.maxRetries {
      assert Servers(net.servers, e.server + 1) == 0;
      assert p * 0 == 0;
    }
  }

  // ---------- the operations ----------

  /** dns_check_entries, from entry j on. */
  function Ticked(net: Net, s: State, j: nat): State
    requires net.Ok() && Settled(net, s) && j <= |s.table|
    decreases |s.table| - j
  {
    if j == |s.table| then s
    else
      SettledChecked(net, s, j);
      Ticked(net, Checked(net, s, j, 0), j + 1)
  }

  lemma {:induction false} SettledChecked(net: Net, s: State, j: nat)
    requires net.Ok() && Settled(net, s) && j < |s.table|
    ensures Settled(net, Checked(net, s, j, 0))
    ensures |Checked(net, s, j, 0).table| == |s.table| && |Checked(net, s, j, 0).requests| == |s.requests|
  {
    CheckedValid(net, s, j, 0);
  }

  predicate SameName(a: seq<byte>, b: seq<byte>) {
    |a| == |b| && forall i | 0 <= i < |a| :: DnsName.Lower(a[i]) == DnsName.Lower(b[i])
  }

  predicate IsDuplicate(e: Entry, name: seq<byte>) {
    e.state == ASKING && SameName(name, e.name)
  }

  function Age(seqno: u8, e: Entry): u8 {
    (seqno - e.seqno) % 0x100
  }

  predicate Evictable(seqno: u8, e: Entry) {
    e.state == DONE && Age(seqno, e) > 0
  }

  /** Entry i is the first unused one or, if there is none, the first of the oldest evictable ones. */
  ghost predicate Picked(table: seq<Entry>, seqno: u8, i: nat) {
    && i < |table|
    && if table[i].state == UNUSED then forall j | 0 <= j < i :: table[j].state != UNUSED
       else
         && Evictable(seqno, table[i])
         && (forall j | 0 <= j < |table| :: table[j].state != UNUSED)
         && forall j | 0 <= j < |table| && table[j].state == DONE ::
              Age(seqno, table[j]) <= Age(seqno, table[i]) && (j < i ==> Age(seqno, table[j]) < Age(seqno, table[i]))
  }

  ghost predicate NonePicked(table: seq<Entry>, seqno: u8) {
    forall j | 0 <= j < |table| :: table[j].state != UNUSED && !Evictable(seqno, table[j])
  }

  ghost predicate FirstFree(requests: seq<Request>, r: nat) {
    r < |requests| && requests[r].Free? && forall q | 0 <= q < r :: !requests[q].Free?
  }

  ghost predicate NoneFree(requests: seq<Request>) {
    forall q | 0 <= q < |requests| :: !requests[q].Free?
  }

  ghost predicate FirstDuplicate(table: seq<Entry>, name: seq<byte>, i: nat) {
    i < |table| && IsDuplicate(table[i], name) && forall j | 0 <= j < i :: !IsDuplicate(table[j], name)
  }

  ghost predicate NoDuplicate(table: seq<Entry>, name: seq<byte>) {
    forall j | 0 <= j < |table| :: !IsDuplicate(table[j], name)
  }

  /** The slots of a new lookup are filled; its query is still to be sent. */
  function Filled(s: State, i: nat, r: nat, name: seq<byte>, cb: nat): State
    requires i < |s.table| && r < |s.requests|
  {
    State(s.table[i := s.table[i].(state := NEW, seqno := s.seqno, name := name)], s.requests[r := Waiting(cb, i)],
          (s.seqno + 1) % 0x100, s.log)
  }

  lemma {:induction false} FilledValid(net: Net, s: State, i: nat, r: nat, name: seq<byte>, cb: nat)
    requires net.Ok() && Settled(net, s) && i < |s.table| && r < |s.requests| && s.requests[r].Free?
    requires s.table[i].state == UNUSED || s.table[i].state == DONE
    ensures Valid(net, Filled(s, i, r, name, cb))
    ensures forall q | 0 <= q < |s.requests| && s.requests[q].Waiting? :: s.requests[q].idx != i
  {
    var t := Filled(s, i, r, name, cb);
    forall q {:trigger t.requests[q]} | 0 <= q < |t.requests| ensures RequestOk(t.table, t.requests[q]) {
      assert RequestOk(s.table, s.requests[q]);
    }
    forall q | 0 <= q < |s.requests| && s.requests[q].Waiting? ensures s.requests[q].idx != i {
      assert RequestOk(s.table, s.requests[q]);
    }
  }

  /** dns_enqueue: how a request was placed. */
  datatype Outcome = Full | Joined(i: nat, r: nat) | Placed(i: nat, r: nat, txid: u16)

  /** The outcome o is what the tables call for. */
  ghost predicate Chosen(s: State, name: seq<byte>, o: Outcome) {
    match o
    case Joined(i, r) => FirstDuplicate(s.table, name, i) && FirstFree(s.requests, r)
    case Placed(i, r, txid) =>
      NoDuplicate(s.table, name) && Picked(s.table, s.seqno, i) && FirstFree(s.requests, r) && IdUnused(s.table, txid)
    case Full => NoneFree(s.requests) || (NoDuplicate(s.table, name) && NonePicked(s.table, s.seqno))
  }

  function Enqueued(net: Net, s: State, name: seq<byte>, cb: nat, o: Outcome): State
    requires net.Ok() && Settled(net, s) && Chosen(s, name, o)
  {
    match o
    case Full => s
    case Joined(i, r) => s.(requests := s.requests[r := Waiting(cb, i)])
    case Placed(i, r, txid) =>
      FilledValid(net, s, i, r, name, cb);
      Checked(net, Filled(s, i, r, name, cb), i, txid)
  }

  /** dns_correct_response for the entry that waits for it. */
  function Answered(s: State, i: nat, ttl: u32): State
    requires i < |s.table|
  {
    var kept: u32 := if ttl > MAX_TTL then MAX_TTL else ttl;
    Found(s, i, true).(table := s.table[i := s.table[i].(ttl := kept, state := if kept == 0 then UNUSED else DONE)])
  }

  /** What dns_recv makes of a response without an address. A response whose flags report an error moves on
    * to the next server if there is one. */
  function Refused(net: Net, s: State, i: nat, error: bool): State
    requires net.Ok() && Settled(net, s) && i < |s.table| && s.table[i].state == ASKING
  {
    assert EntryOk(net, s.table[i]);
    if error && net.Backup(s.table[i].server) then
      s.(table := s.table[i := s.table[i].(server := s.table[i].server + 1, tmr := 1, retries := 0)])
    else TimedOut(s, i, s.table[i])
  }

  // ---------- runs ----------

  datatype Event =
    | Tick
    | Lookup(name: seq<byte>, cb: nat, o: Outcome)
    | Answer(i: nat, ttl: u32)
    | Refusal(i: nat, error: bool)

  ghost predicate Step(net: Net, s: State, e: Event, t: State)
    requires net.Ok() && Settled(net, s)
  {
    match e
    case Tick => t == Ticked(net, s, 0)
    case Lookup(name, cb, o) => Chosen(s, name, o) && t == Enqueued(net, s, name, cb, o)
    case Answer(i, ttl) => i < |s.table| && s.table[i].state == ASKING && t == Answered(s, i, ttl)
    case Refusal(i, error) => i < |s.table| && s.table[i].state == ASKING && t == Refused(net, s, i, error)
  }

  lemma {:induction false} SettledFound(net: Net, s: State, i: nat, answered: bool, e: Entry)
    requires Settled(net, s) && i < |s.table| && (e.state == UNUSED || e.state == DONE)
    ensures Settled(net, Found(s, i, answered).(table := s.table[i := e]))
  {
    var t := Found(s, i, answered).(table := s.table[i := e]);
    FoundRequests(s, i, answered);
    forall r {:trigger t.requests[r]} | 0 <= r < |t.requests| ensures RequestOk(t.table, t.requests[r]) {
      assert RequestOk(s.table, s.requests[r]);
    }
  }

  /** Every operation keeps the invariant, and with it: timers of pending entries never reach 0 early, a
    * pending callback's entry is being asked for, and outstanding queries have different identifiers. */
  lemma {:induction false} StepKeeps(net: Net, s: State, e: Event, t: State)
    requires net.Ok() && Settled(net, s) && Step(net, s, e, t)
    ensures Settled(net, t) && |t.table| == |s.table| && |t.requests| == |s.requests|
  {
    match e
    case Tick => TickedSettled(net, s, 0);
    case Lookup(name, cb, o) =>
      match o {
        case Full =>
        case Joined(i, r) =>
          forall q {:trigger t.requests[q]} | 0 <= q < |t.requests| ensures RequestOk(t.table, t.requests[q]) {
            assert RequestOk(s.table, s.requests[q]);
          }
        case Placed(i, r, txid) =>
          FilledValid(net, s, i, r, name, cb);
          CheckedValid(net, Filled(s, i, r, name, cb), i, txid);
      }
    case Answer(i, ttl) => SettledFound(net, s, i, true, t.table[i]);
    case Refusal(i, error) =>
      assert EntryOk(net, s.table[i]);
      if error && net.Backup(s.table[i].server) {
        assert EntryOk(net, t.table[i]);
        forall q {:trigger t.requests[q]} | 0 <= q < |t.requests| ensures RequestOk(t.table, t.requests[q]) {
          assert RequestOk(s.table, s.requests[q]);
        }
      } else {
        SettledFound(net, s, i, false, t.table[i]);
      }
  }

  lemma {:induction false} TickedSettled(net: Net, s: State, j: nat)
    requires net.Ok() && Settled(net, s) && j <= |s.table|
    ensures var t := Ticked(net, s, j);
            Settled(net, t) && |t.table| == |s.table| && |t.requests| == |s.requests|
    decreases |s.table| - j
  {
    if j < |s.table| {
      SettledChecked(net, s, j);
      TickedSettled(net, Checked(net, s, j, 0), j + 1);
    }
  }

  // ---------- no callback is lost or called twice ----------

  function Open(s: State, cb: nat): nat {
    Called(s.log, cb) + Pending(s.requests, cb)
  }

  lemma {:induction false} CheckedConserves(net: Net, s: State, i: nat, txid: u16, cb: nat)
    requires net.Ok() && Valid(net, s) && i < |s.table|
    ensures Open(Checked(net, s, i, txid), cb) == Open(s, cb)
    ensures Pending(Checked(net, s, i, txid).requests, cb) <= Pending(s.requests, cb)
    ensures multiset(Checked(net, s, i, txid).log)[Call(cb, true)] == multiset(s.log)[Call(cb, true)]
  {
    var t := Checked(net, s, i, txid);
    if t.log != s.log || t.requests != s.requests {
      CheckedFound(net, s, i, txid);
      CallsConserve(s.requests, i, false, cb);
      FoundConserves(s, i, false, cb);
    }
  }

  lemma {:induction false} CheckedFound(net: Net, s: State, i: nat, txid: u16)
    requires net.Ok() && Valid(net, s) && i < |s.table|
    ensures var t := Checked(net, s, i, txid);
            || (t.log == s.log && t.requests == s.requests)
            || (t.log == Found(s, i, false).log && t.requests == Found(s, i, false).requests)
  {
  }

  lemma {:induction false} TickedConserves(net: Net, s: State, j: nat, cb: nat)
    requires net.Ok() && Settled(net, s) && j <= |s.table|
    ensures var t := Ticked(net, s, j);
            && Open(t, cb) == Open(s, cb) && Pending(t.requests, cb) <= Pending(s.requests, cb)
            && multiset(t.log)[Call(cb, true)] == multiset(s.log)[Call(cb, true)]
    decreases |s.table| - j
  {
    if j < |s.table| {
      SettledChecked(net, s, j);
      CheckedConserves(net, s, j, 0, cb);
      TickedConserves(net, Checked(net, s, j, 0), j + 1, cb);
    }
  }

  /** Each accepted lookup adds one callback to those that are pending or called; nothing else changes
    * that sum. So every accepted callback is called at most once, and until then it is pending. */
  lemma {:induction false} StepConserves(net: Net, s: State, e: Event, t: State, cb: nat)
    requires net.Ok() && Settled(net, s) && Step(net, s, e, t)
    ensures Open(t, cb) == Open(s, cb) + if e.Lookup? && !e.o.Full? && e.cb == cb then 1 else 0
    ensures !e.Answer? ==> multiset(t.log)[Call(cb, true)] == multiset(s.log)[Call(cb, true)]
  {
    match e
    case Tick => TickedConserves(net, s, 0, cb);
    case Lookup(name, c, o) =>
      match o {
        case Full =>
        case Joined(i, r) => PendingSet(s.requests, r, Waiting(c, i), cb);
        case Placed(i, r, txid) =>
          PendingSet(s.requests, r, Waiting(c, i), cb);
          FilledValid(net, s, i, r, name, c);
          CheckedConserves(net, Filled(s, i, r, name, c), i, txid, cb);
      }
    case Answer(i, ttl) => FoundConserves(s, i, true, cb);
    case Refusal(i, error) => FoundConserves(s, i, false, cb);
  }

  /** dns_enqueue reuses only unused and answered entries: what is being asked for stays as it is. */
  lemma {:induction false} EnqueueEvictsNoneAsked(net: Net, s: State, name: seq<byte>, cb: nat, o: Outcome)
    requires net.Ok() && Settled(net, s) && Chosen(s, name, o)
    ensures forall j | 0 <= j < |s.table| && s.table[j].state == ASKING ::
        Enqueued(net, s, name, cb, o).table[j] == s.table[j]
    ensures forall q | 0 <= q < |s.requests| && s.requests[q].Waiting? ::
        Enqueued(net, s, name, cb, o).requests[q] == s.requests[q]
  {
    if o.Placed? {
      FilledValid(net, s, o.i, o.r, name, cb);
      var f := Filled(s, o.i, o.r, name, cb);
      FoundRequests(f, o.i, false);
    }
  }

  /** A lookup of a new name that finds a free request slot is refused exactly if every entry is either being
    * asked for or was answered at an age that is a multiple of 256: the search for the oldest answer starts
    * from age 0 and takes only older ones. A lookup of a name that is being asked for never needs an entry. */
  lemma {:induction false} FullIff(net: Net, s: State, name: seq<byte>, o: Outcome)
    requires net.Ok() && Settled(net, s) && Chosen(s, name, o) && !NoneFree(s.requests)
    ensures o.Joined? <==> !NoDuplicate(s.table, name)
    ensures o.Full? <==> NoDuplicate(s.table, name) && forall i | 0 <= i < |s.table| ::
                           s.table[i].state == ASKING || (s.table[i].state == DONE && s.table[i].seqno == s.seqno)
  {
    if o.Placed? {
      assert s.table[o.i].state == UNUSED || Evictable(s.seqno, s.table[o.i]);
    }
    forall i | 0 <= i < |s.table| && s.table[i].state == DONE
      ensures Evictable(s.seqno, s.table[i]) <==> s.table[i].seqno != s.seqno
    {
    }
  }

  // ---------- an unanswered lookup ----------

  /** Callback cb waits in slot r alone for entry i, which has n ticks left. */
  ghost predicate Waits(net: Net, s: State, cb: nat, r: nat, i: nat, n: nat) {
    && r < |s.requests| && s.requests[r] == Waiting(cb, i) && Pending(s.requests, cb) == 1
    && i < |s.table| && s.table[i].state == ASKING && Left(net, s.table[i]) == n
  }

  lemma {:induction false} CheckedOther(net: Net, s: State, j: nat, txid: u16, cb: nat, r: nat, i: nat, n: nat)
    requires net.Ok() && Valid(net, s) && j < |s.table| && Waits(net, s, cb, r, i, n) && i != j
    ensures Waits(net, Checked(net, s, j, txid), cb, r, i, n)
    ensures Called(Checked(net, s, j, txid).log, cb) == Called(s.log, cb)
  {
    var t := Checked(net, s, j, txid);
    FoundRequests(s, j, false);
    assert t.requests[r] == s.requests[r];
    PendingSome(t.requests, r);
    CheckedConserves(net, s, j, txid, cb);
  }

  lemma {:induction false} CheckedSelf(net: Net, s: State, cb: nat, r: nat, i: nat, n: nat)
    requires net.Ok() && Valid(net, s) && Waits(net, s, cb, r, i, n)
    ensures n > 1 ==>
        Waits(net, Checked(net, s, i, 0), cb, r, i, n - 1)
        && Called(Checked(net, s, i, 0).log, cb) == Called(s.log, cb)
    ensures n <= 1 ==> Pending(Checked(net, s, i, 0).requests, cb) == 0
  {
    assert EntryOk(net, s.table[i]);
    LeftFalls(net, s.table[i]);
    if Asked(net, s.table[i]).1 {
      DroppedLess(s.requests, r, i, cb);
    }
  }

  /** A callback that waits for an entry waits no more when its callbacks have been called. */
  lemma {:induction false} DroppedLess(requests: seq<Request>, r: nat, i: nat, cb: nat)
    requires r < |requests| && requests[r] == Waiting(cb, i)
    ensures Pending(Dropped(requests, i), cb) < Pending(requests, cb)
  {
    var n := |requests| - 1;
    assert Dropped(requests, i)[..n] == Dropped(requests[..n], i);
    if r < n {
      DroppedLess(requests[..n], r, i, cb);
    } else {
      CallsConserve(requests[..n], i, true, cb);
    }
  }

  /** From s to t, k of n ticks have passed. */
  ghost predicate Outlasts(net: Net, s: State, t: State, cb: nat, r: nat, i: nat, n: nat, k: nat) {
    if n > k then Waits(net, t, cb, r, i, n - k) && Called(t.log, cb) == Called(s.log, cb)
    else Pending(t.requests, cb) == 0
  }

  lemma {:induction false} TickedPast(net: Net, s: State, cb: nat, r: nat, i: nat, n: nat, j: nat)
    requires net.Ok() && Settled(net, s) && Waits(net, s, cb, r, i, n) && n >= 1 && i < j <= |s.table|
    ensures Waits(net, Ticked(net, s, j), cb, r, i, n) && Called(Ticked(net, s, j).log, cb) == Called(s.log, cb)
    decreases |s.table| - j
  {
    if j < |s.table| {
      var t := PassedBy(net, s, cb, r, i, n, j);
      TickedPast(net, t, cb, r, i, n, j + 1);
    }
  }

  /** The turn of another entry. */
  lemma {:induction false} PassedBy(net: Net, s: State, cb: nat, r: nat, i: nat, n: nat, j: nat) returns (t: State)
    requires net.Ok() && Settled(net, s) && Waits(net, s, cb, r, i, n) && i != j < |s.table|
    ensures Settled(net, t) && Waits(net, t, cb, r, i, n) && |t.table| == |s.table|
    ensures Called(t.log, cb) == Called(s.log, cb) && Ticked(net, s, j) == Ticked(net, t, j + 1)
  {
    t := Checked(net, s, j, 0);
    SettledChecked(net, s, j);
    CheckedOther(net, s, j, 0, cb, r, i, n);
  }

  lemma {:induction false} CheckedHere(net: Net, s: State, cb: nat, r: nat, i: nat, n: nat)
    requires net.Ok() && Settled(net, s) && Waits(net, s, cb, r, i, n) && n >= 1
    ensures Outlasts(net, s, Ticked(net, s, i), cb, r, i, n, 1)
  {
    SettledChecked(net, s, i);
    CheckedSelf(net, s, cb, r, i, n);
    TickedRest(net, s, Checked(net, s, i, 0), cb, r, i, n);
  }

  lemma {:induction false} TickedRest(net: Net, s: State, t: State, cb: nat, r: nat, i: nat, n: nat)
    requires net.Ok() && Settled(net, t) && Outlasts(net, s, t, cb, r, i, n, 1) && n >= 1 && i < |t.table|
    ensures Outlasts(net, s, Ticked(net, t, i + 1), cb, r, i, n, 1)
  {
    if n > 1 {
      TickedPast(net, t, cb, r, i, n - 1, i + 1);
    } else {
      TickedConserves(net, t, i + 1, cb);
    }
  }

  /** A tick takes one from what entry i has left, when the tick gets to it. */
  lemma {:induction false} TickedWaits(net: Net, s: State, cb: nat, r: nat, i: nat, n: nat, j: nat)
    requires net.Ok() && Settled(net, s) && Waits(net, s, cb, r, i, n) && n >= 1 && j <= i
    ensures Outlasts(net, s, Ticked(net, s, j), cb, r, i, n, 1)
    decreases i - j
  {
    if i == j {
      CheckedHere(net, s, cb, r, i, n);
    } else {
      var t := PassedBy(net, s, cb, r, i, n, j);
      TickedWaits(net, t, cb, r, i, n, j + 1);
    }
  }

  /** A run that gives entry i no answer and starts no second lookup for callback cb. */
  ghost predicate Silent(e: Event, i: nat, cb: nat) {
    && (e.Lookup? ==> e.cb != cb)
    && (e.Answer? ==> e.i != i)
    && (e.Refusal? ==> e.i != i)
  }

  ghost predicate Run(net: Net, states: seq<State>, events: seq<Event>)
    requires net.Ok()
  {
    && |states| == |events| + 1
    && (forall k | 0 <= k < |states| :: Settled(net, states[k]))
    && (forall k {:trigger events[k]} | 0 <= k < |events| :: Step(net, states[k], events[k], states[k + 1]))
  }

  function Ticks(events: seq<Event>): nat {
    if events == [] then 0 else (if events[0].Tick? then 1 else 0) + Ticks(events[1..])
  }

  lemma {:induction false} StepWaits(net: Net, s: State, e: Event, t: State, cb: nat, r: nat, i: nat, n: nat)
    requires net.Ok() && Settled(net, s) && Step(net, s, e, t) && Waits(net, s, cb, r, i, n) && Silent(e, i, cb)
        && n >= 1
    ensures Outlasts(net, s, t, cb, r, i, n, if e.Tick? then 1 else 0)
  {
    StepConserves(net, s, e, t, cb);
    match e
    case Tick => TickedWaits(net, s, cb, r, i, n, 0);
    case Lookup(name, c, o) =>
      EnqueueEvictsNoneAsked(net, s, name, c, o);
      StepKeeps(net, s, e, t);
      LookupPending(net, s, name, c, o, cb);
    case Answer(j, ttl) =>
      FoundRequests(s, j, true);
      PendingSome(t.requests, r);
      CallsConserve(s.requests, j, true, cb);
    case Refusal(j, error) =>
      FoundRequests(s, j, false);
      PendingSome(t.requests, r);
      CallsConserve(s.requests, j, false, cb);
  }

  lemma {:induction false} LookupPending(net: Net, s: State, name: seq<byte>, c: nat, o: Outcome, cb: nat)
    requires net.Ok() && Settled(net, s) && Chosen(s, name, o) && c != cb
    ensures Pending(Enqueued(net, s, name, c, o).requests, cb) == Pending(s.requests, cb)
    ensures Called(Enqueued(net, s, name, c, o).log, cb) == Called(s.log, cb)
  {
    StepConserves(net, s, Lookup(name, c, o), Enqueued(net, s, name, c, o), cb);
    if !o.Full? {
      PendingSet(s.requests, o.r, Waiting(c, o.i), cb);
    }
    if o.Placed? {
      var f := Filled(s, o.i, o.r, name, c);
      FilledValid(net, s, o.i, o.r, name, c);
      NoCalls(f.requests, o.i, cb);
      CallsConserve(f.requests, o.i, false, cb);
    }
  }

  lemma {:induction false} NoCalls(requests: seq<Request>, i: nat, cb: nat)
    requires forall q | 0 <= q < |requests| :: requests[q].Waiting? && requests[q].idx == i ==> requests[q].cb != cb
    ensures forall a :: multiset(CallsTo(requests, i, a))[Call(cb, a)] == 0
  {
    if requests != [] {
      NoCalls(requests[..|requests| - 1], i, cb);
    }
  }

  /** Once called, never pending again. */
  lemma {:induction false} StepGone(net: Net, s: State, e: Event, t: State, cb: nat)
    requires net.Ok() && Settled(net, s) && Step(net, s, e, t) && Pending(s.requests, cb) == 0
        && (e.Lookup? ==> e.cb != cb)
    ensures Pending(t.requests, cb) == 0
  {
    match e
    case Tick => TickedConserves(net, s, 0, cb);
    case Lookup(name, c, o) => LookupPending(net, s, name, c, o, cb);
    case Answer(j, ttl) => CallsConserve(s.requests, j, true, cb);
    case Refusal(j, error) => CallsConserve(s.requests, j, false, cb);
  }

  /** The callback of a lookup with n ticks left is not called before the n-th tick; by then it has been
    * called exactly once, without an address, and is never called again. Other lookups may come, end or
    * join the same entry in between. */
  lemma {:induction false} SilentLookup(net: Net, states: seq<State>, events: seq<Event>, cb: nat, r: nat, i: nat,
                                        n: nat)
    requires net.Ok() && Run(net, states, events) && Waits(net, states[0], cb, r, i, n) && n >= 1
    requires forall k | 0 <= k < |events| :: Silent(events[k], i, cb)
    ensures var s, t := states[0], states[|events|];
            && multiset(t.log)[Call(cb, true)] == multiset(s.log)[Call(cb, true)]
            && multiset(t.log)[Call(cb, false)] ==
               multiset(s.log)[Call(cb, false)] + (if Ticks(events) < n then 0 else 1)
            && (Ticks(events) < n ==> Waits(net, t, cb, r, i, n - Ticks(events)))
  {
    SilentRun(net, states, events, cb, r, i, n);
  }

  lemma {:induction false} SilentRun(net: Net, states: seq<State>, events: seq<Event>, cb: nat, r: nat, i: nat, n: nat)
    requires net.Ok() && Run(net, states, events) && |events| >= 0
    requires n >= 1 ==> Waits(net, states[0], cb, r, i, n)
    requires n == 0 ==> Pending(states[0].requests, cb) == 0
    requires forall k | 0 <= k < |events| :: Silent(events[k], i, cb)
    ensures var s, t := states[0], states[|events|];
            && Open(t, cb) == Open(s, cb)
            && multiset(t.log)[Call(cb, true)] == multiset(s.log)[Call(cb, true)]
            && if Ticks(events) < n then Waits(net, t, cb, r, i, n - Ticks(events)) else Pending(t.requests, cb) == 0
    decreases |events|
  {
    if events != [] {
      var e, s, t := events[0], states[0], states[1];
      assert Step(net, s, e, t) && Silent(e, i, cb);
      StepConserves(net, s, e, t, cb);
      AnswersOther(net, s, e, t, cb, r, i, n);
      var m := if e.Tick? && n > 0 then n - 1 else n;
      if n >= 1 {
        StepWaits(net, s, e, t, cb, r, i, n);
      } else {
        StepGone(net, s, e, t, cb);
      }
      SilentRun(net, states[1..], events[1..], cb, r, i, m);
    }
  }

  lemma {:induction false} AnswersOther(net: Net, s: State, e: Event, t: State, cb: nat, r: nat, i: nat, n: nat)
    requires net.Ok() && Settled(net, s) && Step(net, s, e, t) && Silent(e, i, cb)
    requires n >= 1 ==> Waits(net, s, cb, r, i, n)
    requires n == 0 ==> Pending(s.requests, cb) == 0
    ensures multiset(t.log)[Call(cb, true)] == multiset(s.log)[Call(cb, true)]
  {
    StepConserves(net, s, e, t, cb);
    if e.Answer? {
      CallsConserve(s.requests, e.i, true, cb);
      FoundConserves(s, e.i, true, cb);
      if n >= 1 {
        FoundRequests(s, e.i, true);
        PendingSome(t.requests, r);
      }
    }
  }

  /** A new lookup that gets no answer lasts exactly k * (1 + R * (R - 1) / 2) ticks, R being the number of
    * retries and k the number of servers in a row that are set from the first on; for k = 0 the callback has
    * been called when dns_enqueue returns. */
  lemma {:induction false} LookupLasts(net: Net, s: State, name: seq<byte>, cb: nat, o: Outcome)
    requires net.Ok() && Settled(net, s) && Chosen(s, name, o) && o.Placed? && Open(s, cb) == 0
    ensures var t := Enqueued(net, s, name, cb, o);
            var n := LookupTicks(net);
            if n == 0 then Pending(t.requests, cb) == 0 && multiset(t.log)[Call(cb, false)] == 1
            else Waits(net, t, cb, o.r, o.i, n)
    ensures LookupTicks(net) == Servers(net.servers, 0) * (1 + net.maxRetries * (net.maxRetries - 1) / 2)
  {
    ServerTicksIs(net);
    var f, t := Filled(s, o.i, o.r, name, cb), Enqueued(net, s, name, cb, o);
    FilledValid(net, s, o.i, o.r, name, cb);
    PendingSet(s.requests, o.r, Waiting(cb, o.i), cb);
    FreshTicks(net);
    StepConserves(net, s, Lookup(name, cb, o), t, cb);
    if !net.servers[0] {
      DroppedLess(f.requests, o.r, o.i, cb);
    }
  }

  /** The whole story of a lookup without an answer: found(NULL) comes exactly once, at tick n. */
  lemma {:induction false} UnansweredLookup(net: Net, s: State, name: seq<byte>, cb: nat, o: Outcome,
                                            states: seq<State>, events: seq<Event>)
    requires net.Ok() && Settled(net, s) && Chosen(s, name, o) && o.Placed? && Open(s, cb) == 0
    requires Run(net, states, events) && states[0] == Enqueued(net, s, name, cb, o)
    requires forall k | 0 <= k < |events| :: Silent(events[k], o.i, cb)
    ensures var log, n := states[|events|].log, LookupTicks(net);
            && multiset(log)[Call(cb, true)] == 0
            && multiset(log)[Call(cb, false)] == if Ticks(events) < n then 0 else 1
  {
    LookupLasts(net, s, name, cb, o);
    StepConserves(net, s, Lookup(name, cb, o), states[0], cb);
    SilentRun(net, states, events, cb, o.r, o.i, LookupTicks(net));
  }

  function LookupTicks(net: Net): nat {
    Servers(net.servers, 0) * ServerTicks(net)
  }

  lemma {:induction false} FreshTicks(net: Net)
    requires net.Ok()
    ensures var n := LookupTicks(net);
            if net.servers[0] then
              n >= 1 && n == 1 + RetryTicks(net.maxRetries, 1) + ServerTicks(net) * Servers(net.servers, 1)
            else n == 0
  {
    if net.servers[0] {
      var p, k := ServerTicks(net), Servers(net.servers, 1);
      assert (1 + k) * p == p + p * k;
    }
  }
}
