/** The timer list of core/timeouts.c: the code that changes it in place, proved against the machine of TimerCheck. */
module Timeouts {
  import opened Words
  import opened TimerOrder
  import opened TimerCheck

  class TimerList {
    /** next_timeout, head first. */
    var list: seq<Timeo>
    /** The free entries of the MEMP_SYS_TIMEOUT pool. */
    var pool: nat
    /** current_timeout_due_time. */
    var dueTime: u32
    /** The clock behind sys_now, without the wrap. */
    var clock: nat
    /** The timers whose handlers have been called. */
    ghost var fired: seq<Timeo>

    ghost function State(): Timers
      reads this
    {
      Timers(list, pool, clock)
    }

    constructor (pool: nat, clock: nat)
      ensures State() == Timers([], pool, clock) && fired == []
    {
      list, this.pool, dueTime, this.clock := [], pool, 0, clock;
      fired := [];
    }

    /** sys_now. */
    method Now() returns (now: u32)
      ensures now == clock % U32
    {
      now := clock % U32;
    }

    /** sys_timeout_abs: does nothing if the pool is empty. */
    method TimeoutAbs(absTime: u32, h: Handler, arg: nat)
      modifies this`list, this`pool
      ensures State() == Added(old(State()), Timeo(absTime, h, arg))
    {
      if pool == 0 {
        return;
      }
      pool := pool - 1;
      var timeout := Timeo(absTime, h, arg);
      if list == [] {
        list := [timeout];
        return;
      }
      if TimeLess(timeout.time, list[0].time) {
        PositionIs(list, timeout.time, 0);
        assert list[..0] == [] && list[0..] == list;
        assert Inserted(list, timeout) == [timeout] + list;
        list := [timeout] + list;
      } else {
        ghost var l0 := list;
        var t := 0;
        PositionAfter(l0, timeout.time, 0);
        while !(t + 1 == |list| || TimeLess(timeout.time, list[t + 1].time))
          invariant list == l0 == old(list) && pool == old(pool) - 1 && 0 <= t < |list|
              && t < Position(l0, timeout.time)
          invariant forall i | 0 <= i <= t :: !TimeLess(timeout.time, l0[i].time)
          decreases |list| - t
        {
          t := t + 1;
          PositionAfter(l0, timeout.time, t);
        }
        PositionIs(l0, timeout.time, t + 1);
        assert Inserted(l0, timeout) == l0[..t + 1] + [timeout] + l0[t + 1..];
        list := list[..t + 1] + [timeout] + list[t + 1..];
      }
    }

    /** sys_timeout: one new timer, due msecs from now. */
    method Timeout(msecs: nat, h: Handler, arg: nat)
      modifies this`list, this`pool
      ensures State() == Act(old(State()), Start(msecs, h, arg))
      ensures old(pool) > 0 ==> exists x :: WaitsFor(x, clock, msecs, h, arg)
                                            && multiset(list) == multiset(old(list)) + multiset{x}
    {
      var now := Now();
      AddWraps(clock, msecs);
      ghost var x := StartIs(State(), msecs, h, arg);
      TimeoutAbs((now + msecs) % U32, h, arg);
    }

    /** sys_untimeout: removes the first match and no other timer. */
    method Untimeout(h: Handler, arg: nat)
      modifies this`list, this`pool
      ensures State() == Act(old(State()), Cancel(h, arg))
    {
      var t := 0;
      while t < |list|
        invariant 0 <= t <= |list| && list == old(list) && pool == old(pool)
        invariant forall i | 0 <= i < t :: !(list[i].h == h && list[i].arg == arg)
      {
        if list[t].h == h && list[t].arg == arg {
          assert Find(list, h, arg) == t;
          list := list[..t] + list[t + 1..];
          pool := pool + 1;
          return;
        }
        t := t + 1;
      }
    }

    /** The work of a handler. */
    method Work(acts: seq<Action>)
      modifies this`list, this`pool, this`clock
      ensures State() == Acts(old(State()), acts)
    {
      for i := 0 to |acts|
        invariant Acts(State(), acts[i..]) == Acts(old(State()), acts)
      {
        assert acts[i..][1..] == acts[i + 1..];
        match acts[i] {
          case Wait(ms) => clock := clock + ms;
          case Start(msecs, h, arg) => Timeout(msecs, h, arg);
          case Cancel(h, arg) => Untimeout(h, arg);
        }
      }
    }

    /** lwip_cyclic_timer: after its work the timer comes back one interval behind its due time, or one
      * interval from now if that has passed. */
    method CyclicTimer(h: Handler, arg: nat, acts: seq<Action>)
      requires h.Cyclic?
      modifies this`list, this`pool, this`clock
      ensures State() == Handled(old(State()), Timeo(dueTime, h, arg), acts)
    {
      Work(acts);
      var now := Now();
      var next := (dueTime + h.interval) % U32;
      if TimeLess(next, now) {
        TimeoutAbs((now + h.interval) % U32, h, arg);
      } else {
        TimeoutAbs(next, h, arg);
      }
    }

    /** handler(arg). */
    method RunHandler(h: Handler, arg: nat, acts: seq<Action>)
      modifies this`list, this`pool, this`clock
      ensures State() == Handled(old(State()), Timeo(dueTime, h, arg), acts)
    {
      match h {
        case NoHandler =>
        case Func(_) => Work(acts);
        case Cyclic(_, _) => CyclicTimer(h, arg, acts);
      }
    }

    /** The body of the loop of sys_check_timeouts: the timer's entry is free again before its handler runs. */
    method FireHead(acts: seq<Action>)
      requires list != []
      modifies this
      ensures State() == Fired(old(State()), acts) && fired == old(fired) + [old(list)[0]]
    {
      var t := list[0];
      list := list[1..];
      dueTime := t.time;
      pool := pool + 1;
      fired := fired + [t];
      RunHandler(t.h, t.arg, acts);
    }

    /** sys_check_timeouts; works is what the handlers do, one after the other. n timers have fired; done tells
      * whether the call has returned. If not, works is used up. */
    method CheckTimeouts(works: seq<seq<Action>>) returns (n: nat, done: bool)
      modifies this
      ensures n <= |works| && Goes(old(clock), old(State()), works[..n]) && (!done ==> n == |works|)
      ensures State() == After(old(clock), old(State()), works[..n])
      ensures fired == old(fired) + TraceOf(old(clock), old(State()), works[..n]).run
      ensures done <==> !Expired(old(clock), State())
    {
      ghost var s := State();
      var now := Now();
      n := 0;
      while true
        invariant now == old(clock) % U32 && n <= |works| && Goes(old(clock), s, works[..n])
        invariant State() == After(old(clock), s, works[..n])
        invariant fired == old(fired) + TraceOf(old(clock), s, works[..n]).run
        decreases |works| - n
      {
        if list == [] {
          return n, true;
        }
        if TimeLess(now, list[0].time) {
          return n, true;
        }
        if n == |works| {
          return n, false;
        }
        assert works[..n + 1] == works[..n] + [works[n]];
        GoesOn(old(clock), s, works[..n], works[n]);
        TraceGoesOn(old(clock), s, works[..n], works[n]);
        FireHead(works[n]);
        n := n + 1;
      }
    }

    /** sys_restart_timeouts: the first timer is due now, all keep their distance to it. */
    method Restart()
      modifies this`list
      ensures list == Rebased(old(list), clock % U32)
    {
      if list == [] {
        return;
      }
      var now := Now();
      var base := list[0].time;
      var t := 0;
      ghost var l0 := list;
      while t < |list|
        invariant 0 <= t <= |list| == |l0|
        invariant list[..t] == Rebased(l0, now)[..t] && list[t..] == l0[t..]
      {
        assert list[t] == l0[t];
        list := list[t := list[t].(time := ((list[t].time - base) % U32 + now) % U32)];
        t := t + 1;
      }
    }

    /** sys_timeouts_sleeptime. */
    method Sleeptime() returns (r: u32)
      ensures list == [] ==> r == 0xFFFF_FFFF
      ensures list != [] ==> r == SleepTime(clock % U32, list[0].time)
      ensures list != [] ==>
        (SleepsUntilDue(clock % U32, list[0].time, r) <==> (list[0].time - clock % U32) % U32 != HALF)
    {
      if list == [] {
        return 0xFFFF_FFFF;
      }
      var now := Now();
      SleepIs(now, list[0].time);
      if TimeLess(list[0].time, now) {
        r := 0;
      } else {
        r := (list[0].time - now) % U32;
        assert r <= MAX_TIMEOUT;
      }
    }
  }

  lemma {:induction false} PositionAfter(list: seq<Timeo>, time: u32, t: nat)
    requires t < |list| && t <= Position(list, time) && !TimeLess(time, list[t].time)
    ensures t < Position(list, time)
  {
  }

  /** All times moved so that the first one becomes now. */
  function Rebased(list: seq<Timeo>, now: u32): (r: seq<Timeo>) {
    seq(|list|, i requires 0 <= i < |list| => list[i].(time := ((list[i].time - list[0].time) % U32 + now) % U32))
  }

  /** Rebasing keeps order and spacing, the first timer being due at once. */
  lemma {:induction false} RebasedKeeps(lo: nat, list: seq<Timeo>, clock: nat)
    requires InWindow(lo, list) && Sorted(lo, list) && list != []
    ensures InWindow(clock, Rebased(list, clock % U32)) && Sorted(clock, Rebased(list, clock % U32))
    ensures Dues(clock, Rebased(list, clock % U32)) ==
            seq(|list|, i requires 0 <= i < |list| => clock + Dues(lo, list)[i] - Dues(lo, list)[0])
  {
    var s, n := Dues(lo, list), Dues(clock, Rebased(list, clock % U32));
    forall i | 0 <= i < |list| ensures n[i] == clock + s[i] - s[0] && s[0] <= s[i] < lo + HALF {
      assert s[i] in s && s[0] in s;
      RebasedOne(lo, list[0].time, list[i].time, clock);
    }
  }

  lemma {:induction false} RebasedOne(lo: nat, base: u32, t: u32, clock: nat)
    requires Due(lo, base) <= Due(lo, t) < lo + U32
    ensures var n: u32 := ((t - base) % U32 + clock % U32) % U32;
            Due(clock, n) - clock == Due(lo, t) - Due(lo, base)
  {
    var gap := Due(lo, t) - Due(lo, base);
    assert (t - base) % U32 == gap;
    AddWraps(clock, gap);
    DueOf(clock, clock + gap);
  }

  /** sys_timeouts_sleeptime for a list whose head is due at time. */
  function SleepTime(now: u32, time: u32): u32 {
    if TimeLess(time, now) then 0 else (time - now) % U32
  }

  /** The test of sys_check_timeouts: a timer for this time would run after sleeping s. */
  predicate DueAfter(now: u32, time: u32, s: nat) {
    !TimeLess((now + s) % U32, time)
  }

  /** r is the shortest time to sleep after which a timer is due. */
  ghost predicate SleepsUntilDue(now: u32, time: u32, r: nat) {
    && DueAfter(now, time, r)
    && forall s {:trigger DueAfter(now, time, s)} | 0 <= s < r :: !DueAfter(now, time, s)
  }

  /** Sleeping as long as told is exactly enough, unless the head lies half the clock's range away:
    * then each of the two times is less than the other and the answer is 0 although nothing is due. */
  lemma {:induction false} SleepIs(now: u32, time: u32)
    ensures SleepsUntilDue(now, time, SleepTime(now, time)) <==> (time - now) % U32 != HALF
    ensures SleepTime(now, time) <= MAX_TIMEOUT
  {
    var gap := (time - now) % U32;
    DueAfterIs(now, time, 0);
    if !TimeLess(time, now) {
      DueAfterIs(now, time, gap);
      forall s {:trigger DueAfter(now, time, s)} | 0 <= s < gap ensures !DueAfter(now, time, s) {
        DueAfterIs(now, time, s);
      }
    }
  }

  lemma {:induction false} DueAfterIs(now: u32, time: u32, s: nat)
    requires s <= HALF
    ensures var gap := (time - now) % U32;
            DueAfter(now, time, s) <==> if s < gap then gap - s > HALF else s - gap < HALF
  {
    var gap := (time - now) % U32;
    var turns := (now + s) / U32 + (time - now) / U32;
    var left := (now + s) % U32 - time;
    assert left == s - gap - U32 * turns;
    if s >= gap {
      ModOf(left, s - gap, -turns);
    } else {
      ModOf(left, s - gap + U32, -turns - 1);
    }
  }

  lemma {:induction false} ModOf(x: int, y: int, k: int)
    requires x == y + U32 * k && 0 <= y < U32
    ensures x % U32 == y
  {
  }

  /** The answer 0 for a timer that the test of sys_check_timeouts does not take for due. sys_timeout asserts that
    * no timer is started so far ahead; a timer is so far away that has been overdue for 2^31 ms. */
  lemma {:induction false} SleepFails()
    ensures SleepTime(0, HALF) == 0 && !DueAfter(0, HALF, 0)
  {
  }
}
