/** sys_check_timeouts of core/timeouts.c as a machine: which timers fire, and what becomes of the list, the
  * pool and the clock, for every behaviour of the handlers. */
module TimerCheck {
  import opened Words
  import opened TimerOrder

  // ---------- the machine ----------

  /** What a handler can do: take time, sys_timeout, sys_untimeout. */
  datatype Action = Wait(ms: nat) | Start(msecs: nat, h: Handler, arg: nat) | Cancel(h: Handler, arg: nat)

  /** next_timeout, head first; the free entries of the pool; and the clock behind sys_now, without the wrap. */
  datatype Timers = Timers(list: seq<Timeo>, pool: nat, clock: nat)

  /** sys_timeout_abs: does nothing if the pool is empty. */
  function Added(s: Timers, x: Timeo): Timers {
    if s.pool == 0 then s else s.(list := Inserted(s.list, x), pool := s.pool - 1)
  }

  /** The first timer for this handler and argument. */
  function Find(list: seq<Timeo>, h: Handler, arg: nat): (k: nat)
    ensures k <= |list| && (k < |list| ==> list[k].h == h && list[k].arg == arg)
    ensures forall i | 0 <= i < k :: !(list[i].h == h && list[i].arg == arg)
  {
    if list == [] || (list[0].h == h && list[0].arg == arg) then 0 else 1 + Find(list[1..], h, arg)
  }

  /** What sys_timeout starts, and what sys_untimeout removes. */
  function New(s: Timers, a: Action): Timeo
    requires a.Start?
  {
    Timeo((s.clock + a.msecs) % U32, a.h, a.arg)
  }

  function Without(list: seq<Timeo>, k: nat): seq<Timeo>
    requires k < |list|
  {
    list[..k] + list[k + 1..]
  }

  function Act(s: Timers, a: Action): Timers {
    match a
    case Wait(ms) => s.(clock := s.clock + ms)
    case Start(_, _, _) => Added(s, New(s, a))
    case Cancel(h, arg) =>
      var k := Find(s.list, h, arg);
      if k < |s.list| then s.(list := Without(s.list, k), pool := s.pool + 1) else s
  }

  /** x waits for msecs from clock on, in every window that holds both times. */
  ghost predicate WaitsFor(x: Timeo, clock: nat, msecs: nat, h: Handler, arg: nat) {
    && x.h == h && x.arg == arg
    && forall lo: nat {:trigger Due(lo, x.time)} | lo <= clock && clock + msecs < lo + U32 ::
         Due(lo, x.time) == clock + msecs
  }

  /** sys_timeout adds exactly one timer, which is due msecs from now, unless the pool is empty. */
  lemma {:induction false} StartIs(s: Timers, msecs: nat, h: Handler, arg: nat) returns (x: Timeo)
    ensures WaitsFor(x, s.clock, msecs, h, arg)
    ensures var t := Act(s, Start(msecs, h, arg));
            if s.pool == 0 then t == s
            else multiset(t.list) == multiset(s.list) + multiset{x} && t.pool == s.pool - 1 && t.clock == s.clock
  {
    x := New(s, Start(msecs, h, arg));
    assert WaitsFor(x, s.clock, msecs, h, arg) by { WaitsIs(s.clock, msecs, h, arg); }
    InsertedContents(s.list, x);
  }

  lemma {:induction false} WaitsIs(clock: nat, msecs: nat, h: Handler, arg: nat)
    ensures WaitsFor(Timeo((clock + msecs) % U32, h, arg), clock, msecs, h, arg)
  {
    var x := Timeo((clock + msecs) % U32, h, arg);
    forall lo: nat {:trigger Due(lo, x.time)} | lo <= clock && clock + msecs < lo + U32
      ensures Due(lo, x.time) == clock + msecs
    {
      DueOf(lo, clock + msecs);
    }
  }

  /** sys_untimeout removes exactly the first timer for this handler and argument, if there is one. */
  lemma {:induction false} CancelIs(s: Timers, h: Handler, arg: nat, k: nat)
    requires k <= |s.list| && (k < |s.list| ==> s.list[k].h == h && s.list[k].arg == arg)
    requires forall i | 0 <= i < k :: !(s.list[i].h == h && s.list[i].arg == arg)
    ensures Act(s, Cancel(h, arg)) ==
            if k == |s.list| then s else s.(list := s.list[..k] + s.list[k + 1..], pool := s.pool + 1)
  {
    assert Find(s.list, h, arg) == k;
  }

  function Acts(s: Timers, acts: seq<Action>): Timers
    decreases acts
  {
    if acts == [] then s else Acts(Act(s, acts[0]), acts[1..])
  }

  /** When a cyclic timer that was due at a time is due next: one interval behind that or, if that has
    * passed, one interval from now. */
  function NextTime(time: u32, interval: nat, clock: nat): u32 {
    var next := (time + interval) % U32;
    if TimeLess(next, clock % U32) then (clock % U32 + interval) % U32 else next
  }

  /** The cyclic timer t as it comes back. */
  function Again(s: Timers, t: Timeo): Timeo
    requires t.h.Cyclic?
  {
    t.(time := NextTime(t.time, t.h.interval, s.clock))
  }

  /** The handler of t has run and done acts. */
  function Handled(s: Timers, t: Timeo, acts: seq<Action>): Timers {
    match t.h
    case NoHandler => s
    case Func(_) => Acts(s, acts)
    case Cyclic(_, _) => Added(Acts(s, acts), Again(Acts(s, acts), t))
  }

  /** The head is taken off, its pool entry freed, and its handler called. */
  function Popped(s: Timers): Timers
    requires s.list != []
  {
    s.(list := s.list[1..], pool := s.pool + 1)
  }

  function Fired(s: Timers, acts: seq<Action>): Timers
    requires s.list != []
  {
    Handled(Popped(s), s.list[0], acts)
  }

  /** The head has expired, for a check that read `now` when it began. */
  predicate Expired(now: nat, s: Timers) {
    s.list != [] && !TimeLess(now % U32, s.list[0].time)
  }

  /** A check that began at `now` goes on from s for as many timers as there are works, one for each handler. */
  predicate Goes(now: nat, s: Timers, works: seq<seq<Action>>)
    decreases works
  {
    works != [] ==> Expired(now, s) && Goes(now, Fired(s, works[0]), works[1..])
  }

  function After(now: nat, s: Timers, works: seq<seq<Action>>): Timers
    requires Goes(now, s, works)
    decreases works
  {
    if works == [] then s else After(now, Fired(s, works[0]), works[1..])
  }

  /** The whole check: it has come to an end. */
  predicate Ends(now: nat, s: Timers, works: seq<seq<Action>>) {
    Goes(now, s, works) && !Expired(now, After(now, s, works))
  }

  lemma {:induction false} GoesOn(now: nat, s: Timers, works: seq<seq<Action>>, acts: seq<Action>)
    requires Goes(now, s, works) && Expired(now, After(now, s, works))
    ensures Goes(now, s, works + [acts])
    ensures After(now, s, works + [acts]) == Fired(After(now, s, works), acts)
    decreases works
  {
    if works == [] {
      assert [acts][1..] == [];
    } else {
      assert (works + [acts])[1..] == works[1..] + [acts];
      GoesOn(now, Fired(s, works[0]), works[1..], acts);
    }
  }

  // ---------- what happens in a run ----------

  /** The timers that acts start, if the pool has an entry for them; that they cancel; and whether the pool
    * was empty at a start. */
  function Started(s: Timers, acts: seq<Action>): seq<Timeo>
    decreases acts
  {
    if acts == [] then []
    else StartedBy(s, acts[0]) + Started(Act(s, acts[0]), acts[1..])
  }

  function StartedBy(s: Timers, a: Action): seq<Timeo> {
    if a.Start? && s.pool > 0 then [New(s, a)] else []
  }

  function Removed(list: seq<Timeo>, a: Action): seq<Timeo> {
    if a.Cancel? && Find(list, a.h, a.arg) < |list| then [list[Find(list, a.h, a.arg)]] else []
  }

  function Cancelled(s: Timers, acts: seq<Action>): seq<Timeo>
    decreases acts
  {
    if acts == [] then [] else Removed(s.list, acts[0]) + Cancelled(Act(s, acts[0]), acts[1..])
  }

  predicate Dry(s: Timers, acts: seq<Action>)
    decreases acts
  {
    acts != [] && ((acts[0].Start? && s.pool == 0) || Dry(Act(s, acts[0]), acts[1..]))
  }

  /** The actions of a handler: none if there is no handler. */
  function Done(t: Timeo, acts: seq<Action>): seq<Action> {
    if t.h == NoHandler then [] else acts
  }

  /** run has fired; the handlers have started and cancelled timers; cyclic ones have come back; dry tells
    * whether the pool was empty when a timer was to be started or to come back. */
  datatype Trace = Trace(run: seq<Timeo>, started: seq<Timeo>, gone: seq<Timeo>, back: seq<Timeo>, dry: bool)

  function Back(s: Timers, t: Timeo): seq<Timeo> {
    if t.h.Cyclic? && s.pool > 0 then [Again(s, t)] else []
  }

  function TraceOf(now: nat, s: Timers, works: seq<seq<Action>>): Trace
    requires Goes(now, s, works)
    decreases works
  {
    if works == [] then Trace([], [], [], [], false)
    else
      var t, acts := s.list[0], Done(s.list[0], works[0]);
      var rest := TraceOf(now, Fired(s, works[0]), works[1..]);
      Trace([t] + rest.run, Started(Popped(s), acts) + rest.started, Cancelled(Popped(s), acts) + rest.gone,
            Back(Acts(Popped(s), acts), t) + rest.back,
            Dry(Popped(s), acts) || (t.h.Cyclic? && Acts(Popped(s), acts).pool == 0) || rest.dry)
  }

  lemma {:induction false} TraceGoesOn(now: nat, s: Timers, works: seq<seq<Action>>, acts: seq<Action>)
    requires Goes(now, s, works) && Expired(now, After(now, s, works)) && Goes(now, s, works + [acts])
    ensures TraceOf(now, s, works + [acts]).run == TraceOf(now, s, works).run + [After(now, s, works).list[0]]
    decreases works
  {
    if works == [] {
      assert [acts][1..] == [];
    } else {
      assert (works + [acts])[1..] == works[1..] + [acts];
      TraceGoesOn(now, Fired(s, works[0]), works[1..], acts);
    }
  }

  // ---------- conservation ----------

  /** How many timers are x. */
  function Number(list: seq<Timeo>, x: Timeo): nat {
    multiset(list)[x]
  }

  lemma {:induction false} NumberConcat(a: seq<Timeo>, b: seq<Timeo>, x: Timeo)
    ensures Number(a + b, x) == Number(a, x) + Number(b, x)
  {
  }

  lemma {:induction false} ActsConserve(s: Timers, acts: seq<Action>, x: Timeo)
    ensures Number(s.list, x) + Number(Started(s, acts), x)
            == Number(Acts(s, acts).list, x) + Number(Cancelled(s, acts), x)
    ensures Acts(s, acts).pool + |Acts(s, acts).list| == s.pool + |s.list|
    decreases acts
  {
    if acts != [] {
      var a, s1 := acts[0], Act(s, acts[0]);
      ActConserves(s, a, x);
      ActsConserve(s1, acts[1..], x);
      NumberConcat(StartedBy(s, a), Started(s1, acts[1..]), x);
      NumberConcat(Removed(s.list, a), Cancelled(s1, acts[1..]), x);
    }
  }

  lemma {:induction false} ActConserves(s: Timers, a: Action, x: Timeo)
    ensures Number(s.list, x) + Number(StartedBy(s, a), x) == Number(Act(s, a).list, x) + Number(Removed(s.list, a), x)
    ensures Act(s, a).pool + |Act(s, a).list| == s.pool + |s.list|
  {
    match a
    case Wait(_) =>
    case Start(_, _, _) =>
      InsertedContents(s.list, New(s, a));
    case Cancel(h, arg) =>
      RemovedConserves(s.list, Find(s.list, h, arg), x);
  }

  lemma {:induction false} RemovedConserves(list: seq<Timeo>, k: nat, x: Timeo)
    ensures k < |list| ==> Number(list, x) == Number(Without(list, k), x) + Number([list[k]], x)
  {
    if k < |list| { WithoutOne(list, k); }
  }

  lemma {:induction false} FiredConserves(s: Timers, acts: seq<Action>, x: Timeo)
    requires s.list != []
    ensures var t, d := s.list[0], Done(s.list[0], acts);
            Number(s.list, x) + Number(Started(Popped(s), d), x) + Number(Back(Acts(Popped(s), d), t), x)
            == Number([t], x) + Number(Fired(s, acts).list, x) + Number(Cancelled(Popped(s), d), x)
    ensures Fired(s, acts).pool + |Fired(s, acts).list| == s.pool + |s.list|
  {
    var t, d := s.list[0], Done(s.list[0], acts);
    var u := Acts(Popped(s), d);
    assert Number(s.list, x) == Number([t], x) + Number(s.list[1..], x) by {
      assert s.list == [t] + s.list[1..];
      NumberConcat([t], s.list[1..], x);
    }
    ActsConserve(Popped(s), d, x);
    assert Number(u.list, x) + Number(Back(u, t), x) == Number(Fired(s, acts).list, x) by {
      if t.h.Cyclic? && u.pool > 0 { InsertedContents(u.list, Again(u, t)); }
    }
  }

  /** No timer is lost or made up: those at the start and those started and come back are those that have
    * fired, that were cancelled and that are pending; and no pool entry is leaked. */
  lemma {:induction false} Conserved(now: nat, s: Timers, works: seq<seq<Action>>, x: Timeo)
    requires Goes(now, s, works)
    ensures var e, u := TraceOf(now, s, works), After(now, s, works);
            && Number(s.list, x) + Number(e.started, x) + Number(e.back, x)
               == Number(e.run, x) + Number(u.list, x) + Number(e.gone, x)
            && u.pool + |u.list| == s.pool + |s.list|
    decreases works
  {
    if works != [] {
      var t, d, f := s.list[0], Done(s.list[0], works[0]), Fired(s, works[0]);
      var rest := TraceOf(now, f, works[1..]);
      FiredConserves(s, works[0], x);
      Conserved(now, f, works[1..], x);
      NumberConcat([t], rest.run, x);
      NumberConcat(Started(Popped(s), d), rest.started, x);
      NumberConcat(Cancelled(Popped(s), d), rest.gone, x);
      NumberConcat(Back(Acts(Popped(s), d), t), rest.back, x);
    }
  }

  /** Every cyclic timer that has fired has come back unless the pool was empty; none else has. */
  lemma {:induction false} CyclicComesBack(now: nat, s: Timers, works: seq<seq<Action>>, h: Handler, arg: nat)
    requires Goes(now, s, works)
    ensures var e := TraceOf(now, s, works);
            Copies(e.back, h, arg) <= Copies(e.run, h, arg)
            && (!e.dry ==> Copies(e.back, h, arg) == Copies(e.run, h, arg))
    decreases works
  {
    if works != [] {
      var t, acts := s.list[0], Done(s.list[0], works[0]);
      var rest := TraceOf(now, Fired(s, works[0]), works[1..]);
      CyclicComesBack(now, Fired(s, works[0]), works[1..], h, arg);
      CopiesConcat([t], rest.run, h, arg);
      CopiesConcat(Back(Acts(Popped(s), acts), t), rest.back, h, arg);
      assert [t][1..] == [];
    }
  }

  /** No cyclic timer is lost unless it is cancelled or the pool runs dry. */
  lemma {:induction false} CyclicKept(now: nat, s: Timers, works: seq<seq<Action>>, h: Handler, arg: nat)
    requires Goes(now, s, works) && !TraceOf(now, s, works).dry
    ensures var e, u := TraceOf(now, s, works), After(now, s, works);
            Copies(s.list, h, arg) + Copies(e.started, h, arg) == Copies(u.list, h, arg) + Copies(e.gone, h, arg)
  {
    var e, u := TraceOf(now, s, works), After(now, s, works);
    var l, r := s.list + e.started + e.back, e.run + u.list + e.gone;
    forall x ensures Number(l, x) == Number(r, x) {
      Conserved(now, s, works, x);
      NumberConcat(s.list + e.started, e.back, x);
      NumberConcat(s.list, e.started, x);
      NumberConcat(e.run + u.list, e.gone, x);
      NumberConcat(e.run, u.list, x);
    }
    assert multiset(l) == multiset(r) by {
      forall x ensures multiset(l)[x] == multiset(r)[x] { assert Number(l, x) == Number(r, x); }
    }
    CopiesPermute(l, r, h, arg);
    CyclicComesBack(now, s, works, h, arg);
    CopiesConcat(s.list + e.started, e.back, h, arg);
    CopiesConcat(s.list, e.started, h, arg);
    CopiesConcat(e.run + u.list, e.gone, h, arg);
    CopiesConcat(e.run, u.list, h, arg);
  }

  lemma {:induction false} CopiesPermute(a: seq<Timeo>, b: seq<Timeo>, h: Handler, arg: nat)
    requires multiset(a) == multiset(b)
    ensures Copies(a, h, arg) == Copies(b, h, arg)
  {
    if a == [] {
      assert b == [] by { OneIn(b, a); }
    } else {
      OneIn(a, b);
      var k :| 0 <= k < |b| && b[k] == a[0];
      assert multiset(a[1..]) == multiset(Without(b, k)) by { WithoutOne(a, 0); WithoutOne(b, k); }
      CopiesPermute(a[1..], Without(b, k), h, arg);
      CopiesWithout(b, k, h, arg);
    }
  }

  lemma {:induction false} OneIn(a: seq<Timeo>, b: seq<Timeo>)
    requires multiset(a) == multiset(b)
    ensures a != [] ==> a[0] in b
  {
    if a != [] { assert a[0] in multiset(b); }
  }

  lemma {:induction false} WithoutOne(list: seq<Timeo>, k: nat)
    requires k < |list|
    ensures multiset(Without(list, k)) == multiset(list) - multiset{list[k]}
    ensures k == 0 ==> Without(list, k) == list[1..]
  {
    assert list == list[..k] + [list[k]] + list[k + 1..];
  }

  lemma {:induction false} CopiesWithout(list: seq<Timeo>, k: nat, h: Handler, arg: nat)
    requires k < |list|
    ensures Copies(list, h, arg) == Copies(Without(list, k), h, arg) + Copy(list[k], h, arg)
  {
    CopiesConcat(list[..k], list[k..], h, arg);
    CopiesConcat(list[..k], list[k + 1..], h, arg);
    assert list == list[..k] + list[k..] && list[k..][1..] == list[k + 1..];
  }

  // ---------- runs within the window ----------

  /** What handlers keep to: no time beyond the horizon, and delays and intervals between min and max. */
  datatype Bounds = Bounds(horizon: nat, min: nat, max: nat) {
    predicate Holds(h: Handler) {
      h.Cyclic? ==> min <= h.interval <= max
    }

    predicate Allows(s: Timers, a: Action) {
      match a
      case Wait(ms) => s.clock + ms <= horizon
      case Start(msecs, h, _) => min <= msecs <= max && Holds(h)
      case Cancel(_, _) => true
    }

    predicate AllowsAll(s: Timers, acts: seq<Action>)
      decreases acts
    {
      acts != [] ==> Allows(s, acts[0]) && AllowsAll(Act(s, acts[0]), acts[1..])
    }
  }

  predicate Within(b: Bounds, now: nat, s: Timers, works: seq<seq<Action>>)
    requires Goes(now, s, works)
    decreases works
  {
    works != [] ==>
      && b.AllowsAll(Popped(s), Done(s.list[0], works[0]))
      && Within(b, now, Fired(s, works[0]), works[1..])
  }

  /** A check began at `now`, and all that is or can become pending fits a window of 2^31 from lo on. */
  ghost predicate Ready(lo: nat, now: nat, b: Bounds, s: Timers) {
    && lo <= now <= s.clock <= b.horizon && b.horizon + b.max < lo + HALF
    && InWindow(lo, s.list) && Sorted(lo, s.list)
    && forall t | t in s.list :: b.Holds(t.h)
  }

  /** What is pending at s1 was pending at s or is not due before now. */
  ghost predicate Later(lo: nat, now: nat, l: seq<Timeo>, l1: seq<Timeo>) {
    forall u | u in l1 :: u in l || now <= Due(lo, u.time)
  }

  lemma {:induction false} ActReady(lo: nat, now: nat, b: Bounds, s: Timers, a: Action)
    requires Ready(lo, now, b, s) && b.Allows(s, a)
    ensures Ready(lo, now, b, Act(s, a)) && Later(lo, now, s.list, Act(s, a).list) && s.clock <= Act(s, a).clock
    ensures b.min > 0 ==> forall w :: Weight(lo, now, Act(s, a).list, w) <= Weight(lo, now, s.list, w)
  {
    match a
    case Wait(_) =>
    case Start(msecs, _, _) =>
      if s.pool > 0 {
        var x := New(s, a);
        DueOf(lo, s.clock + msecs);
        AddedReady(lo, now, b, s, x);
        forall w ensures b.min > 0 ==> Weight(lo, now, Act(s, a).list, w) <= Weight(lo, now, s.list, w) {
          WeightInserted(lo, now, s.list, x, w);
        }
      }
    case Cancel(h, arg) =>
      var k := Find(s.list, h, arg);
      if k < |s.list| {
        RemovedSorted(lo, s.list, k);
        assert forall u | u in Without(s.list, k) :: u in s.list;
        forall w ensures Weight(lo, now, Act(s, a).list, w) <= Weight(lo, now, s.list, w) {
          WeightWithout(lo, now, s.list, k, w);
        }
      }
  }

  lemma {:induction false} AddedReady(lo: nat, now: nat, b: Bounds, s: Timers, x: Timeo)
    requires Ready(lo, now, b, s) && now <= Due(lo, x.time) < lo + HALF && b.Holds(x.h)
    ensures Ready(lo, now, b, Added(s, x)) && Later(lo, now, s.list, Added(s, x).list)
  {
    InsertedSorted(lo, s.list, x);
    InsertedContents(s.list, x);
  }

  lemma {:induction false} WeightWithout(lo: nat, now: nat, list: seq<Timeo>, k: nat, w: Choice)
    requires k < |list|
    ensures Weight(lo, now, Without(list, k), w) ==
            Weight(lo, now, list, w) - if w.Has(list[k]) then Weight1(lo, now, list[k]) else 0
  {
    WeightConcat(lo, now, list[..k], list[k..], w);
    WeightConcat(lo, now, list[..k], list[k + 1..], w);
    assert list == list[..k] + list[k..] && list[k..][1..] == list[k + 1..];
  }

  lemma {:induction false} ActsReady(lo: nat, now: nat, b: Bounds, s: Timers, acts: seq<Action>)
    requires Ready(lo, now, b, s) && b.AllowsAll(s, acts)
    ensures var u := Acts(s, acts);
            && Ready(lo, now, b, u) && Later(lo, now, s.list, u.list) && s.clock <= u.clock
            && (b.min > 0 ==> forall w :: Weight(lo, now, u.list, w) <= Weight(lo, now, s.list, w))
    decreases acts
  {
    if acts != [] {
      ActReady(lo, now, b, s, acts[0]);
      ActsReady(lo, now, b, Act(s, acts[0]), acts[1..]);
    }
  }

  /** A cyclic timer comes back one interval behind the time it was due at, or one interval from now if that has
    * passed; with less to do in this check. */
  lemma {:induction false} AgainLater(lo: nat, now: nat, b: Bounds, s: Timers, t: Timeo)
    requires Ready(lo, now, b, s) && Due(lo, t.time) <= now && t.h.Cyclic? && b.Holds(t.h)
    ensures var next := Due(lo, t.time) + t.h.interval;
            Due(lo, Again(s, t).time) == if next < s.clock then s.clock + t.h.interval else next
    ensures s.clock <= Due(lo, Again(s, t).time) <= b.horizon + b.max
    ensures Due(lo, Again(s, t).time) < lo + HALF
    ensures b.min > 0 ==> Weight1(lo, now, Again(s, t)) < Weight1(lo, now, t)
  {
    NextCyclic(lo, s.clock, t.time, t.h.interval);
  }

  /** A cyclic timer comes back. */
  lemma {:induction false} AgainReady(lo: nat, now: nat, b: Bounds, s: Timers, t: Timeo)
    requires Ready(lo, now, b, s) && Due(lo, t.time) <= now && t.h.Cyclic? && b.Holds(t.h)
    ensures var f := Added(s, Again(s, t));
            && Ready(lo, now, b, f) && Later(lo, now, s.list, f.list)
            && (b.min > 0 ==>
                  forall w :: Weight(lo, now, f.list, w) <= Weight(lo, now, s.list, w) + Left(lo, now, t, w))
  {
    var x := Again(s, t);
    AgainLater(lo, now, b, s, t);
    if s.pool > 0 {
      AddedReady(lo, now, b, s, x);
      forall w ensures b.min > 0 ==>
                Weight(lo, now, Added(s, x).list, w) <= Weight(lo, now, s.list, w) + Left(lo, now, t, w) {
        WeightInserted(lo, now, s.list, x, w);
      }
    }
  }

  /** How often a timer can fire behind the firing that is under way. */
  function Left(lo: nat, now: nat, t: Timeo, w: Choice): int {
    if w.Has(t) then Weight1(lo, now, t) - 1 else 0
  }

  /** The head that has expired is taken off. */
  lemma {:induction false} PoppedReady(lo: nat, now: nat, b: Bounds, s: Timers)
    requires Ready(lo, now, b, s) && Expired(now, s)
    ensures Due(lo, s.list[0].time) <= now && b.Holds(s.list[0].h) && Ready(lo, now, b, Popped(s))
    ensures forall w :: Weight(lo, now, s.list[1..], w)
                        == Weight(lo, now, s.list, w) - if w.Has(s.list[0]) then Weight1(lo, now, s.list[0]) else 0
  {
    assert s.list[0] in s.list;
    assert forall t | t in s.list[1..] :: t in s.list;
    HeadDue(lo, s.list, now);
    RemovedSorted(lo, s.list, 0);
    assert s.list[..0] + s.list[1..] == s.list[1..];
  }

  /** One timer fires. */
  lemma {:induction false} FiredReady(lo: nat, now: nat, b: Bounds, s: Timers, acts: seq<Action>)
    requires Ready(lo, now, b, s) && Expired(now, s) && b.AllowsAll(Popped(s), Done(s.list[0], acts))
    ensures Due(lo, s.list[0].time) <= now
    ensures Ready(lo, now, b, Fired(s, acts)) && Later(lo, now, s.list[1..], Fired(s, acts).list)
    ensures b.min > 0 ==> forall w :: Weight(lo, now, Fired(s, acts).list, w)
                                      <= Weight(lo, now, s.list, w) - if w.Has(s.list[0]) then 1 else 0
  {
    var t := s.list[0];
    PoppedReady(lo, now, b, s);
    ActsReady(lo, now, b, Popped(s), Done(t, acts));
    if t.h.Cyclic? {
      AgainReady(lo, now, b, Acts(Popped(s), acts), t);
    }
  }

  // ---------- the theorems on checks ----------

  /** All of these are due at d or later. */
  ghost predicate AllFrom(lo: nat, d: nat, list: seq<Timeo>) {
    forall t | t in list :: d <= Due(lo, t.time)
  }

  /** Timers fire in the order of their due times, and only those that were due when the check began. */
  lemma {:induction false} FiresInOrder(lo: nat, now: nat, b: Bounds, s: Timers, works: seq<seq<Action>>, d: nat)
    requires Ready(lo, now, b, s) && Goes(now, s, works) && Within(b, now, s, works)
    requires d <= now && AllFrom(lo, d, s.list)
    ensures var run := TraceOf(now, s, works).run;
            SortedNats(Dues(lo, run)) && AllFrom(lo, d, run) && forall t | t in run :: Due(lo, t.time) <= now
    ensures Ready(lo, now, b, After(now, s, works))
    decreases works
  {
    if works != [] {
      var t, f := s.list[0], Fired(s, works[0]);
      HeadDue(lo, s.list, now);
      FiredReady(lo, now, b, s, works[0]);
      assert t in s.list && AllFrom(lo, Due(lo, t.time), f.list) by {
        assert forall u | u in s.list[1..] :: u in s.list;
      }
      FiresInOrder(lo, now, b, f, works[1..], Due(lo, t.time));
      RunGoesOn(lo, t, TraceOf(now, f, works[1..]).run);
    }
  }

  lemma {:induction false} RunGoesOn(lo: nat, t: Timeo, run: seq<Timeo>)
    requires SortedNats(Dues(lo, run)) && AllFrom(lo, Due(lo, t.time), run)
    ensures SortedNats(Dues(lo, [t] + run))
  {
    assert Dues(lo, [t] + run) == [Due(lo, t.time)] + Dues(lo, run);
    forall i | 0 <= i < |run| ensures Due(lo, t.time) <= Dues(lo, run)[i] {
      assert run[i] in run;
    }
  }

  /** When the check ends, nothing that is pending was due when it began; and every timer that was due has
    * fired, unless it was cancelled. */
  lemma {:induction false} DueFires(lo: nat, now: nat, b: Bounds, s: Timers, works: seq<seq<Action>>, t: Timeo)
    requires Ready(lo, now, b, s) && Ends(now, s, works) && Within(b, now, s, works)
    ensures forall u | u in After(now, s, works).list :: now < Due(lo, u.time)
    ensures t in s.list && Due(lo, t.time) <= now ==>
              var e := TraceOf(now, s, works); Number(s.list, t) <= Number(e.run, t) + Number(e.gone, t)
  {
    FiresInOrder(lo, now, b, s, works, 0);
    Conserved(now, s, works, t);
    var u := After(now, s, works);
    if u.list != [] { HeadDue(lo, u.list, now); }
    assert t in u.list <==> Number(u.list, t) > 0;
  }

  /** If no delay is 0, no timer fires more often than its weight, which is at most 2 for a cyclic timer and
    * 1 for others; so the check ends. */
  lemma {:induction false} FiresBounded(lo: nat, now: nat, b: Bounds, s: Timers, works: seq<seq<Action>>, arg: nat)
    requires Ready(lo, now, b, s) && Goes(now, s, works) && Within(b, now, s, works) && b.min > 0
    ensures Fires(TraceOf(now, s, works).run, arg) <= Weight(lo, now, s.list, Only(arg))
    ensures |works| <= Weight(lo, now, s.list, All)
    decreases works
  {
    if works != [] {
      var t, f := s.list[0], Fired(s, works[0]);
      FiredReady(lo, now, b, s, works[0]);
      FiresBounded(lo, now, b, f, works[1..], arg);
      var run := TraceOf(now, f, works[1..]).run;
      assert ([t] + run)[1..] == run;
      assert Weight(lo, now, f.list, Only(arg)) <= Weight(lo, now, s.list, Only(arg)) - if t.arg == arg then 1 else 0;
      assert Weight(lo, now, f.list, All) <= Weight(lo, now, s.list, All) - 1;
    }
  }

  // ---------- when a check must end ----------

  /** No behaviour of the handlers makes more than n timers fire. */
  ghost predicate EndsWithin(b: Bounds, now: nat, s: Timers, n: nat) {
    forall works {:trigger Goes(now, s, works)} | Goes(now, s, works) && Within(b, now, s, works) :: |works| <= n
  }

  /** Some timer has expired that has a handler. */
  ghost predicate HandlerDue(lo: nat, now: nat, list: seq<Timeo>) {
    exists t :: t in list && Due(lo, t.time) <= now && t.h != NoHandler
  }

  /** A check ends whatever the handlers do if and only if they may not ask for a delay of 0, or none is called. */
  lemma {:induction false} EndsIff(lo: nat, b: Bounds, s: Timers)
    requires Ready(lo, s.clock, b, s)
    ensures (exists n: nat :: EndsWithin(b, s.clock, s, n)) <==> b.min > 0 || !HandlerDue(lo, s.clock, s.list)
  {
    var now := s.clock;
    if b.min > 0 {
      var n := Weight(lo, now, s.list, All);
      forall works {:trigger Goes(now, s, works)} | Goes(now, s, works) && Within(b, now, s, works)
          ensures |works| <= n {
        FiresBounded(lo, now, b, s, works, 0);
      }
      assert EndsWithin(b, now, s, n);
    } else if HandlerDue(lo, now, s.list) {
      forall n: nat ensures !EndsWithin(b, now, s, n) {
        var works := ZeroDelays(n + 1);
        NeverEnds(lo, b, s, n + 1);
        assert Goes(now, s, works);
      }
    } else {
      forall works {:trigger Goes(now, s, works)} | Goes(now, s, works) && Within(b, now, s, works)
          ensures |works| <= |s.list| {
        NoHandlersEnd(lo, now, b, s, works);
      }
      assert EndsWithin(b, now, s, |s.list|);
    }
  }

  lemma {:induction false} NoHandlersEnd(lo: nat, now: nat, b: Bounds, s: Timers, works: seq<seq<Action>>)
    requires Ready(lo, now, b, s) && Goes(now, s, works) && Within(b, now, s, works) && !HandlerDue(lo, now, s.list)
    ensures |works| <= |s.list|
    decreases works
  {
    if works != [] {
      FiredReady(lo, now, b, s, works[0]);
      assert s.list[0] in s.list;
      assert forall t | t in s.list[1..] :: t in s.list;
      NoHandlersEnd(lo, now, b, Fired(s, works[0]), works[1..]);
    }
  }

  /** Every handler starts a timer for itself that is due at once. */
  const AGAIN: Action := Start(0, Func(0), 0)

  function ZeroDelays(n: nat): (works: seq<seq<Action>>)
    ensures |works| == n
  {
    if n == 0 then [] else [[AGAIN]] + ZeroDelays(n - 1)
  }

  lemma {:induction false} NeverEnds(lo: nat, b: Bounds, s: Timers, n: nat)
    requires Ready(lo, s.clock, b, s) && b.min == 0 && HandlerDue(lo, s.clock, s.list)
    ensures Goes(s.clock, s, ZeroDelays(n)) && Within(b, s.clock, s, ZeroDelays(n))
    decreases n
  {
    var works := ZeroDelays(n);
    if n > 0 {
      var t :| t in s.list && Due(lo, t.time) <= s.clock && t.h != NoHandler;
      HeadDue(lo, s.list, s.clock);
      var f := Fired(s, [AGAIN]);
      assert works[1..] == ZeroDelays(n - 1) && works[0] == [AGAIN];
      StillDue(lo, b, s);
      NeverEnds(lo, b, f, n - 1);
    }
  }

  lemma {:induction false} StillDue(lo: nat, b: Bounds, s: Timers)
    requires Ready(lo, s.clock, b, s) && b.min == 0 && Expired(s.clock, s) && HandlerDue(lo, s.clock, s.list)
    ensures b.AllowsAll(Popped(s), Done(s.list[0], [AGAIN]))
    ensures var f := Fired(s, [AGAIN]);
            f.clock == s.clock && Ready(lo, s.clock, b, f) && HandlerDue(lo, s.clock, f.list)
  {
    AgainStarts(Popped(s));
    FiredReady(lo, s.clock, b, s, [AGAIN]);
    var u := DueTimer(lo, s);
  }

  /** A timer that is due behind the firing of the head. */
  lemma {:induction false} DueTimer(lo: nat, s: Timers) returns (u: Timeo)
    requires s.list != [] && lo <= s.clock < lo + HALF && HandlerDue(lo, s.clock, s.list)
    ensures u in Fired(s, [AGAIN]).list && Due(lo, u.time) <= s.clock && u.h != NoHandler
    ensures Fired(s, [AGAIN]).clock == s.clock
  {
    var t, p := s.list[0], Popped(s);
    AgainStarts(p);
    if t.h == NoHandler {
      u :| u in s.list && Due(lo, u.time) <= s.clock && u.h != NoHandler;
    } else {
      u := New(p, AGAIN);
      DueOf(lo, s.clock);
      if t.h.Cyclic? { AddedHas(Added(p, u), Again(Added(p, u), t), u); }
    }
  }

  lemma {:induction false} AgainStarts(p: Timers)
    requires p.pool > 0
    ensures Acts(p, [AGAIN]) == Added(p, New(p, AGAIN)) && New(p, AGAIN) in Acts(p, [AGAIN]).list
    ensures forall b: Bounds :: b.min == 0 ==> b.AllowsAll(p, [AGAIN])
  {
    assert [AGAIN][1..] == [];
    InsertedContents(p.list, New(p, AGAIN));
  }

  lemma {:induction false} AddedHas(s: Timers, x: Timeo, y: Timeo)
    requires y in s.list
    ensures y in Added(s, x).list
  {
    InsertedContents(s.list, x);
  }
}
