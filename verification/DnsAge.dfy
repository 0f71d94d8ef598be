/** A run of the resolver after which an answered entry cannot be reused: its age is 256 lookups. */
module DnsAge {
  import opened Words
  import opened DnsTable
  import DnsName

  /** The tables behind dns_init. */
  function Initial(entries: nat, slots: nat): State {
    State(seq(entries, _ => Entry(UNUSED, 0, 0, 0, 0, 0, 0, [])), seq(slots, _ => Free), 0, [])
  }

  /** One server, two table entries, two request slots. */
  const NET: Net := Net([true], 4)
  const FIRST: seq<byte> := [97]
  const OTHER: seq<byte> := [98]
  const LAST: seq<byte> := [99]
  const CB: nat := 0

  /** Entry 0 holds the answer to the very first lookup; the other entry and the slots are free after n more. */
  ghost predicate Idle(s: State, n: nat) {
    && |s.table| == 2 && s.table[0].state == DONE && s.table[0].seqno == 0 && s.table[1].state == UNUSED
    && s.requests == [Free, Free] && s.seqno == (n + 1) % 0x100 && Settled(NET, s)
  }

  /** Entry i has been asked for last; the other entry is as it was. */
  ghost predicate Asking(s: State, i: nat, seqno: u8, name: seq<byte>) {
    && |s.table| == 2 && i < 2 && s.table[i].state == ASKING && s.table[i].seqno == seqno && s.table[i].name == name
    && s.requests == [Waiting(CB, i), Free] && s.seqno == (seqno + 1) % 0x100 && Settled(NET, s)
  }

  lemma {:induction false} RunOn(states: seq<State>, events: seq<Event>, e: Event, t: State)
    returns (longer: seq<State>, more: seq<Event>)
    requires NET.Ok() && Run(NET, states, events) && Step(NET, states[|events|], e, t) && Settled(NET, t)
    ensures Run(NET, longer, more) && longer[0] == states[0] && longer[|more|] == t
  {
    longer, more := states + [t], events + [e];
    forall k {:trigger more[k]} | 0 <= k < |more| ensures Step(NET, longer[k], more[k], longer[k + 1]) {
      if k < |events| {
        assert more[k] == events[k] && longer[k] == states[k] && longer[k + 1] == states[k + 1];
      }
    }
  }

  /** A lookup, its identifier as the counter yields it, that is placed in the only unused entry there is, or the
   * first of two. */
  lemma {:induction false} Place(s: State, i: nat, name: seq<byte>) returns (e: Event, t: State)
    requires Settled(NET, s) && |s.table| == 2 && s.requests == [Free, Free] && i < 2 && s.table[i].state == UNUSED
    requires i == 1 ==> s.table[0].state == DONE
    requires s.table[1].state == UNUSED
    ensures NET.Ok() && Step(NET, s, e, t) && Asking(t, i, s.seqno, name) && t.table[1 - i] == s.table[1 - i]
  {
    var o := Placed(i, 0, s.seqno + 1);
    assert Chosen(s, name, o);
    e, t := Lookup(name, CB, o), Enqueued(NET, s, name, CB, o);
    FilledValid(NET, s, i, 0, name, CB);
    StepKeeps(NET, s, e, t);
    assert s.requests[0 := Waiting(CB, i)] == [Waiting(CB, i), Free];
  }

  /** The first lookup is answered. */
  lemma {:induction false} First() returns (states: seq<State>, events: seq<Event>)
    ensures NET.Ok() && Run(NET, states, events) && states[0] == Initial(2, 2) && Idle(states[|events|], 0)
  {
    var s := Initial(2, 2);
    assert s.requests == [Free, Free] && UniqueIds(s.table);
    states, events := [s], [];
    var e, t := Place(s, 0, FIRST);
    states, events := RunOn(states, events, e, t);
    var u := Answered(t, 0, MAX_TTL);
    StepKeeps(NET, t, Answer(0, MAX_TTL), u);
    assert Dropped([Waiting(CB, 0), Free], 0) == [Free, Free];
    states, events := RunOn(states, events, Answer(0, MAX_TTL), u);
  }

  /** One more lookup, ended by a response without an address. */
  lemma {:induction false} Refused1(s: State, n: nat) returns (e: Event, t: State, u: State)
    requires Idle(s, n)
    ensures NET.Ok() && Step(NET, s, e, t) && Settled(NET, t) && Step(NET, t, Refusal(1, false), u) && Idle(u, n + 1)
  {
    e, t := Place(s, 1, OTHER);
    u := Refused(NET, t, 1, false);
    StepKeeps(NET, t, Refusal(1, false), u);
    assert Dropped([Waiting(CB, 1), Free], 1) == [Free, Free];
  }

  lemma {:induction false} Many(n: nat) returns (states: seq<State>, events: seq<Event>)
    ensures NET.Ok() && Run(NET, states, events) && states[0] == Initial(2, 2) && Idle(states[|events|], n)
  {
    if n == 0 {
      states, events := First();
    } else {
      states, events := Many(n - 1);
      var e, t, u := Refused1(states[|events|], n - 1);
      states, events := RunOn(states, events, e, t);
      states, events := RunOn(states, events, Refusal(1, false), u);
    }
  }

  /** After 255 more lookups, the last of which is still being asked for, the next one is refused for want of
    * room, although a request slot is free and entry 0 has long been answered. */
  lemma {:induction false} AgeZeroBlocks() returns (states: seq<State>, events: seq<Event>)
    ensures NET.Ok() && Run(NET, states, events) && states[0] == Initial(2, 2)
    ensures var s := states[|events|];
            && |s.table| == 2 && s.table[0].state == DONE && |s.requests| == 2 && s.requests[1].Free?
            && Chosen(s, LAST, Full) && forall o :: Chosen(s, LAST, o) ==> o.Full?
  {
    states, events := Many(254);
    var e, t := Place(states[|events|], 1, OTHER);
    states, events := RunOn(states, events, e, t);
    assert DnsName.Lower(LAST[0]) != DnsName.Lower(OTHER[0]);
    assert !SameName(LAST, OTHER);
    assert NoDuplicate(t.table, LAST) && NonePicked(t.table, t.seqno);
  }
}
