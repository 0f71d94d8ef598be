/** The resolver of core/dns.c: its tables, changed in place. */
module Dns {
  import opened Words
  import opened DnsTable
  import DnsHistory

  class Resolver {
    /** dns_table and dns_requests. */
    const table: array<Entry>
    const requests: array<Request>
    /** dns_servers and DNS_MAX_RETRIES. */
    const net: Net
    /** dns_seqno and dns_txid. */
    var seqno: u8
    var txid: u16
    /** The callbacks made so far. */
    ghost var log: seq<Call>

    ghost function State(): State
      reads this, table, requests
    {
      DnsTable.State(table[..], requests[..], seqno, log)
    }

    ghost predicate Good()
      reads this, table, requests
    {
      net.Ok() && Settled(net, State())
    }

    constructor (net: Net, entries: nat, slots: nat)
      requires net.Ok() && entries <= 255 && slots <= 255
      ensures Good() && log == [] && this.net == net && table.Length == entries && requests.Length == slots
      ensures fresh(table) && fresh(requests)
    {
      this.net, seqno, txid, log := net, 0, 0, [];
      table := new Entry[entries](_ => Entry(UNUSED, 0, 0, 0, 0, 0, 0, []));
      requests := new Request[slots](_ => Free);
    }

    /** dns_call_found. */
    method CallFound(idx: nat, answered: bool)
      modifies requests, this`log
      ensures State() == Found(old(State()), idx, answered)
    {
      ghost var was := requests[..];
      var i := 0;
      while i < requests.Length
        invariant CalledUpTo(was, requests[..], idx, answered, old(log), log, i)
      {
        CalledNext(was, requests[..], idx, answered, old(log), log, i);
        CallSlot(i, idx, answered);
        i := i + 1;
      }
      CalledAll(was, requests[..], idx, answered, old(log), log);
    }

    method CallSlot(i: nat, idx: nat, answered: bool)
      requires i < requests.Length
      modifies requests, this`log
      ensures requests[..] == old(requests[..])[i := Drop(old(requests[i]), idx)]
      ensures log == old(log) + CallOf(old(requests[i]), idx, answered)
    {
      if requests[i].Waiting? && requests[i].idx == idx {
        log := log + [Call(requests[i].cb, answered)];
        requests[i] := Free;
      }
    }

    /** What dns_send does to the tables: a server that is not set ends the lookup. */
    method Send(i: nat)
      requires net.Ok() && i < table.Length && table[i].server < |net.servers|
      modifies table, requests, this`log
      ensures State() == if net.servers[old(table[i].server)] then old(State())
          else TimedOut(old(State()), i, old(table[i]))
    {
      if !net.servers[table[i].server] {
        CallFound(i, false);
        table[i] := table[i].(state := UNUSED);
      }
    }

    /** dns_create_txid, with the counter for a source of numbers: ends with an identifier that no
      * outstanding query has. */
    method CreateTxid() returns (r: u16)
      requires table.Length <= 255
      modifies this`txid
      ensures IdUnused(table[..], r)
    {
      ghost var start, tried: nat, used := txid as int, 0, Used(table[..]);
      UsedSize(table[..]);
      while true
        invariant txid == (start + tried) % U16 && AllTaken(start, tried, used)
        decreases |used| - tried
      {
        TriedAtMost(start, tried, used);
        txid := (txid + 1) % U16;
        r := txid;
        var i := FindId(r);
        if i == table.Length {
          return;
        }
        UsedHas(table[..], i);
        TriedNext(start, tried, used);
        tried := tried + 1;
      }
    }

    method FindId(id: u16) returns (i: nat)
      ensures if i < table.Length then table[i].txid == id else i == table.Length && IdUnused(table[..], id)
    {
      i := 0;
      while i < table.Length && !(table[i].state == ASKING && table[i].txid == id)
        invariant 0 <= i <= table.Length
        invariant forall j | 0 <= j < i && table[j].state == ASKING :: table[j].txid != id
      {
        i := i + 1;
      }
    }

    /** The case DNS_STATE_ASKING of dns_check_entry. */
    method CheckAsking(i: nat, ghost id: u16)
      requires net.Ok() && Valid(net, State()) && i < table.Length && table[i].state == ASKING
      modifies table, requests, this`log
      ensures table[i].state != NEW && State() == Checked(net, old(State()), i, id)
    {
      ghost var s := State();
      assert EntryOk(net, s.table[i]);
      table[i] := table[i].(tmr := table[i].tmr - 1);
      if table[i].tmr == 0 {
        table[i] := table[i].(retries := table[i].retries + 1);
        if table[i].retries == net.maxRetries {
          if net.Backup(table[i].server) {
            table[i] := table[i].(server := table[i].server + 1, tmr := 1, retries := 0);
          } else {
            CallFound(i, false);
            table[i] := table[i].(state := UNUSED);
            assert table[..] == s.table[i := table[i]];
            return;
          }
        } else {
          table[i] := table[i].(tmr := table[i].retries);
        }
        Send(i);
      }
      assert table[..] == s.table[i := table[i]];
    }

    /** dns_check_entry. The timer of a pending entry is never 0 here, so that it does not wrap. */
    method CheckEntry(i: nat) returns (ghost id: u16)
      requires net.Ok() && Valid(net, State()) && i < table.Length
      modifies table, requests, this`log, this`txid
      ensures table[..][i].state != NEW && (old(table[i]).state == NEW ==> IdUnused(old(table[..]), id))
      ensures State() == Checked(net, old(State()), i, id)
    {
      id := 0;
      ghost var s := State();
      assert EntryOk(net, s.table[i]);
      match table[i].state
      case NEW =>
        var t := CreateTxid();
        id := t;
        table[i] := table[i].(txid := t, state := ASKING, server := 0, tmr := 1, retries := 0);
        assert table[..] == s.table[i := table[i]];
        Send(i);
      case ASKING =>
        CheckAsking(i, id);
      case DONE =>
        if table[i].ttl != 0 {
          table[i] := table[i].(ttl := table[i].ttl - 1);
        }
        if table[i].ttl == 0 {
          table[i] := table[i].(state := UNUSED);
        }
        assert table[..] == s.table[i := table[i]];
      case UNUSED =>
    }

    /** dns_tmr. */
    method Tmr()
      requires Good()
      modifies table, requests, this`log, this`txid
      ensures Good() && State() == Ticked(net, old(State()), 0)
    {
      var i := 0;
      while i < table.Length
        invariant 0 <= i <= table.Length && Good()
        invariant Ticked(net, State(), i) == Ticked(net, old(State()), 0)
        modifies table, requests, this`log, this`txid
      {
        ghost var s := State();
        SettledChecked(net, s, i);
        ghost var id := CheckEntry(i);
        assert State() == Checked(net, s, i, 0);
        i := i + 1;
      }
    }

    /** The first entry that is already being asked for this name. */
    method FindDuplicate(name: seq<byte>) returns (i: nat)
      ensures if i < table.Length then FirstDuplicate(table[..], name, i)
          else i == table.Length && NoDuplicate(table[..], name)
    {
      i := 0;
      while i < table.Length && !IsDuplicate(table[i], name)
        invariant 0 <= i <= table.Length && forall j | 0 <= j < i :: !IsDuplicate(table[j], name)
      {
        i := i + 1;
      }
    }

    method FindRequest() returns (r: nat)
      ensures if r < requests.Length then FirstFree(requests[..], r) else r == requests.Length && NoneFree(requests[..])
    {
      r := 0;
      while r < requests.Length && !requests[r].Free?
        invariant 0 <= r <= requests.Length && forall q | 0 <= q < r :: !requests[q].Free?
      {
        r := r + 1;
      }
    }

    /** The search for an unused entry or the oldest answered one. */
    method FindEntry() returns (i: nat)
      ensures if i < table.Length then Picked(table[..], seqno, i)
          else i == table.Length && NonePicked(table[..], seqno)
    {
      var lseq: u8, lseqi: nat := 0, table.Length;
      i := 0;
      while i < table.Length && table[i].state != UNUSED
        invariant 0 <= i <= table.Length && OldestOf(table[..], seqno, i, lseq, lseqi)
      {
        if table[i].state == DONE {
          var age := Age(seqno, table[i]);
          if age > lseq {
            lseq, lseqi := age, i;
          }
        }
        i := i + 1;
      }
      if i == table.Length {
        i := lseqi;
      }
    }

    /** dns_enqueue: INPROGRESS for true, MEM for false. */
    method Enqueue(name: seq<byte>, cb: nat) returns (inProgress: bool, ghost o: Outcome)
      requires Good() && |name| <= 255
      modifies table, requests, this
      ensures Chosen(old(State()), name, o) && State() == Enqueued(net, old(State()), name, cb, o)
      ensures Good() && (inProgress <==> !o.Full?)
      ensures inProgress && (o.Joined? || net.servers[0]) ==> DnsHistory.WaitsFor(State(), o.r, name, cb)
    {
      ghost var s := State();
      var i := FindDuplicate(name);
      var r := FindRequest();
      if i < table.Length && r < requests.Length {
        requests[r] := Waiting(cb, i);
        o := Joined(i, r);
        StepKeeps(net, s, Lookup(name, cb, o), State());
        DnsHistory.AcceptedWaits(net, s, name, cb, o);
        return true, o;
      }
      if r < requests.Length {
        i := FindEntry();
      }
      if r == requests.Length || i == table.Length {
        return false, Full;
      }
      FilledValid(net, s, i, r, name, cb);
      table[i] := table[i].(state := NEW, seqno := seqno, name := name);
      requests[r] := Waiting(cb, i);
      seqno := (seqno + 1) % 0x100;
      assert State() == Filled(s, i, r, name, cb);
      ghost var id := CheckEntry(i);
      o := Placed(i, r, id);
      PlacedChosen(s, Filled(s, i, r, name, cb), name, i, r, id);
      StepKeeps(net, s, Lookup(name, cb, o), State());
      DnsHistory.AcceptedWaits(net, s, name, cb, o);
      inProgress := true;
    }

    /** dns_correct_response. */
    method CorrectResponse(i: nat, ttl: u32)
      requires Good() && i < table.Length && table[i].state == ASKING
      modifies table, requests, this`log
      ensures Good() && State() == Answered(old(State()), i, ttl)
    {
      ghost var s := State();
      table[i] := table[i].(state := DONE, ttl := ttl);
      if table[i].ttl > MAX_TTL {
        table[i] := table[i].(ttl := MAX_TTL);
      }
      CallFound(i, true);
      if table[i].ttl == 0 && table[i].state == DONE {
        table[i] := table[i].(state := UNUSED);
      }
      assert table[..] == s.table[i := table[i]];
      StepKeeps(net, s, Answer(i, ttl), State());
    }

    /** The end of dns_recv for a response that carries no address. */
    method RefusedResponse(i: nat, error: bool)
      requires Good() && i < table.Length && table[i].state == ASKING
      modifies table, requests, this`log, this`txid
      ensures Good() && State() == Refused(net, old(State()), i, error)
    {
      ghost var s := State();
      assert EntryOk(net, s.table[i]);
      if error && net.Backup(table[i].server) {
        RetryValid(net, s, i);
        table[i] := table[i].(retries := net.maxRetries - 1, tmr := 1);
        assert State() == Retried(net, s, i);
        ghost var id := CheckEntry(i);
        assert table[..] == s.table[i := table[i]];
      } else {
        CallFound(i, false);
        table[i] := table[i].(state := UNUSED);
        assert table[..] == s.table[i := table[i]];
      }
      StepKeeps(net, s, Refusal(i, error), State());
    }
  }

  // ---------- calling back ----------

  /** The first n request slots have been looked at. */
  ghost predicate CalledUpTo(was: seq<Request>, now: seq<Request>, idx: nat, answered: bool, log0: seq<Call>,
                             log: seq<Call>, n: nat) {
    && n <= |was| == |now|
    && now == Dropped(was[..n], idx) + was[n..]
    && log == log0 + CallsTo(was[..n], idx, answered)
  }

  lemma {:induction false} CalledNext(was: seq<Request>, now: seq<Request>, idx: nat, answered: bool,
                                      log0: seq<Call>, log: seq<Call>, n: nat)
    requires CalledUpTo(was, now, idx, answered, log0, log, n) && n < |was|
    ensures CalledUpTo(was, now[n := Drop(now[n], idx)], idx, answered, log0, log + CallOf(now[n], idx, answered),
        n + 1)
  {
    var r := was[n];
    assert was[..n + 1][..n] == was[..n];
    assert Dropped(was[..n + 1], idx) == Dropped(was[..n], idx) + [Drop(r, idx)];
    assert was[n..] == [r] + was[n + 1..];
  }

  lemma {:induction false} CalledAll(was: seq<Request>, now: seq<Request>, idx: nat, answered: bool, log0: seq<Call>,
                                     log: seq<Call>)
    requires CalledUpTo(was, now, idx, answered, log0, log, |was|)
    ensures now == Dropped(was, idx) && log == log0 + CallsTo(was, idx, answered)
  {
    assert was[..|was|] == was;
  }

  // ---------- the search for the oldest entry ----------

  ghost predicate OldestOf(table: seq<Entry>, seqno: u8, n: nat, lseq: u8, lseqi: nat)
    requires n <= |table|
  {
    && (forall j | 0 <= j < n :: table[j].state != UNUSED)
    && (forall j | 0 <= j < n && table[j].state == DONE :: Age(seqno, table[j]) <= lseq)
    && if lseq == 0 then lseqi == |table|
       else lseqi < n && table[lseqi].state == DONE && Age(seqno, table[lseqi]) == lseq
            && forall j | 0 <= j < lseqi && table[j].state == DONE :: Age(seqno, table[j]) < lseq
  }

  lemma {:induction false} PlacedChosen(s: State, f: State, name: seq<byte>, i: nat, r: nat, id: u16)
    requires NoDuplicate(s.table, name) && Picked(s.table, s.seqno, i) && FirstFree(s.requests, r)
    requires |f.table| == |s.table| && f.table == s.table[i := f.table[i]] && IdUnused(f.table, id)
    ensures Chosen(s, name, Placed(i, r, id))
  {
    forall j | 0 <= j < |s.table| && s.table[j].state == ASKING ensures s.table[j].txid != id {
      assert j != i;
      assert f.table[j] == s.table[j];
    }
  }

  /** An error response makes the entry look as if its last retry had run out. */
  function Retried(net: Net, s: State, i: nat): State
    requires net.Ok() && i < |s.table|
  {
    s.(table := s.table[i := s.table[i].(retries := net.maxRetries - 1, tmr := 1)])
  }

  lemma {:induction false} RetryValid(net: Net, s: State, i: nat)
    requires net.Ok() && Settled(net, s) && i < |s.table| && s.table[i].state == ASKING
    ensures Settled(net, Retried(net, s, i))
  {
    var t := Retried(net, s, i);
    assert EntryOk(net, s.table[i]);
    assert EntryOk(net, t.table[i]);
    forall q {:trigger t.requests[q]} | 0 <= q < |t.requests| ensures RequestOk(t.table, t.requests[q]) {
      assert RequestOk(s.table, s.requests[q]);
    }
  }

  // ---------- the identifiers tried ----------

  function Used(table: seq<Entry>): set<int> {
    if table == [] then {} else Used(table[1..]) + {table[0].txid as int}
  }

  lemma {:induction false} UsedSize(table: seq<Entry>)
    ensures |Used(table)| <= |table|
  {
    if table != [] {
      UsedSize(table[1..]);
    }
  }

  lemma {:induction false} UsedHas(table: seq<Entry>, i: nat)
    requires i < |table|
    ensures table[i].txid in Used(table)
  {
    if i > 0 {
      UsedHas(table[1..], i - 1);
    }
  }

  /** The n identifiers that follow start. */
  function Tried(start: nat, n: nat): set<int> {
    if n == 0 then {} else Tried(start, n - 1) + {(start + n) % U16}
  }

  ghost predicate AllTaken(start: nat, n: nat, used: set<int>) {
    Tried(start, n) <= used && |Tried(start, n)| == n && |used| < 0x100
  }

  lemma {:induction false} TriedAtMost(start: nat, n: nat, used: set<int>)
    requires AllTaken(start, n, used)
    ensures n <= |used|
  {
    assert used == Tried(start, n) + (used - Tried(start, n));
  }

  lemma {:induction false} TriedDiffer(start: nat, n: nat, k: nat)
    requires n < k < U16
    ensures (start + k) % U16 !in Tried(start, n)
  {
    if n > 0 {
      TriedDiffer(start, n - 1, k);
    }
  }

  lemma {:induction false} TriedNext(start: nat, n: nat, used: set<int>)
    requires AllTaken(start, n, used) && (start + n + 1) % U16 in used
    ensures AllTaken(start, n + 1, used) && n + 1 <= |used|
  {
    TriedAtMost(start, n, used);
    TriedDiffer(start, n, n + 1);
    TriedAtMost(start, n + 1, used);
  }
}
