/** Timers on a clock that never wraps: a timer keeps since when and for how long it waits. The machine of
  * TimerCheck, whose times are 32 bits wide, behaves like this one over every run. */
module TimerReal {
  import opened Words
  import opened TimerOrder
  import opened TimerCheck

  // ---------- the simple machine ----------

  datatype Real = Real(since: nat, delay: nat, h: Handler, arg: nat) {
    function At(): nat {
      since + delay
    }
  }

  datatype Reals = Reals(list: seq<Real>, pool: nat, clock: nat)

  /** In front of the first timer that is to fire later. */
  function Placed(list: seq<Real>, x: Real): (r: seq<Real>)
    ensures forall y :: y in r <==> y in list || y == x
  {
    if list == [] || x.At() < list[0].At() then [x] + list else [list[0]] + Placed(list[1..], x)
  }

  function Put(r: Reals, x: Real): Reals {
    if r.pool == 0 then r else r.(list := Placed(r.list, x), pool := r.pool - 1)
  }

  predicate IsFor(x: Real, h: Handler, arg: nat) {
    x.h == h && x.arg == arg
  }

  predicate Some(list: seq<Real>, h: Handler, arg: nat) {
    exists x :: x in list && IsFor(x, h, arg)
  }

  /** Without the first timer for this handler and argument. */
  function Dropped(list: seq<Real>, h: Handler, arg: nat): (r: seq<Real>)
    ensures forall y :: y in r ==> y in list
  {
    if list == [] then [] else if IsFor(list[0], h, arg) then list[1..] else [list[0]] + Dropped(list[1..], h, arg)
  }

  function Does(r: Reals, a: Action): Reals {
    match a
    case Wait(ms) => r.(clock := r.clock + ms)
    case Start(msecs, h, arg) => Put(r, Real(r.clock, msecs, h, arg))
    case Cancel(h, arg) =>
      if Some(r.list, h, arg) then r.(list := Dropped(r.list, h, arg), pool := r.pool + 1) else r
  }

  function DoesAll(r: Reals, acts: seq<Action>): Reals
    decreases acts
  {
    if acts == [] then r else DoesAll(Does(r, acts[0]), acts[1..])
  }

  /** A cyclic timer waits one interval from the time it was meant for, or from now if that is over already. */
  function Next(r: Reals, x: Real): Real
    requires x.h.Cyclic?
  {
    Real(if x.At() + x.h.interval < r.clock then r.clock else x.At(), x.h.interval, x.h, x.arg)
  }

  /** The head fires and its handler does acts. */
  function Fires1(r: Reals, acts: seq<Action>): Reals
    requires r.list != []
  {
    var x, p := r.list[0], r.(list := r.list[1..], pool := r.pool + 1);
    match x.h
    case NoHandler => p
    case Func(_) => DoesAll(p, acts)
    case Cyclic(_, _) => Put(DoesAll(p, acts), Next(DoesAll(p, acts), x))
  }

  predicate Over(now: nat, r: Reals) {
    r.list != [] && r.list[0].At() <= now
  }

  /** A check at `now` lets these timers fire one after the other. */
  predicate Checks(now: nat, r: Reals, works: seq<seq<Action>>, fired: seq<Real>, t: Reals)
    decreases works
  {
    if works == [] then fired == [] && t == r
    else Over(now, r) && fired != [] && fired[0] == r.list[0]
         && Checks(now, Fires1(r, works[0]), works[1..], fired[1..], t)
  }

  // ---------- what its timers look like in 32 bits ----------

  function Shown1(x: Real): Timeo {
    Timeo(x.At() % U32, x.h, x.arg)
  }

  function ShownList(list: seq<Real>): seq<Timeo> {
    seq(|list|, i requires 0 <= i < |list| => Shown1(list[i]))
  }

  function Shown(r: Reals): Timers {
    Timers(ShownList(r.list), r.pool, r.clock)
  }

  /** All times lie in the window. */
  ghost predicate From(lo: nat, list: seq<Real>) {
    forall x | x in list :: lo <= x.At() < lo + HALF
  }

  ghost predicate Good(lo: nat, now: nat, b: Bounds, r: Reals) {
    Ready(lo, now, b, Shown(r)) && From(lo, r.list)
  }

  lemma {:induction false} InsertedHead(list: seq<Timeo>, x: Timeo)
    requires list != []
    ensures Inserted(list, x) == if TimeLess(x.time, list[0].time) then [x] + list
                                 else [list[0]] + Inserted(list[1..], x)
  {
    if TimeLess(x.time, list[0].time) {
      PositionIs(list, x.time, 0);
      assert list[..0] == [] && list[0..] == list;
    } else {
      var k := Position(list[1..], x.time);
      assert Position(list, x.time) == 1 + k;
      assert list[..k + 1] == [list[0]] + list[1..][..k] && list[k + 1..] == list[1..][k..];
    }
  }

  lemma {:induction false} ShownHead(list: seq<Real>)
    requires list != []
    ensures ShownList(list) == [Shown1(list[0])] + ShownList(list[1..])
  {
  }

  lemma {:induction false} PlacedShown(lo: nat, list: seq<Real>, x: Real)
    requires From(lo, list) && lo <= x.At() < lo + HALF
    ensures ShownList(Placed(list, x)) == Inserted(ShownList(list), Shown1(x))
  {
    if list == [] {
      assert ShownList(Placed(list, x)) == [Shown1(x)];
    } else {
      var y := list[0];
      assert TimeLess(x.At() % U32, y.At() % U32) <==> x.At() < y.At() by {
        DueOf(lo, x.At());
        DueOf(lo, y.At());
        TimeLessIs(lo, x.At() % U32, y.At() % U32);
      }
      ShownHead(list);
      ShownHead(Placed(list, x));
      InsertedHead(ShownList(list), Shown1(x));
      if !(x.At() < y.At()) {
        PlacedShown(lo, list[1..], x);
        assert Placed(list, x)[1..] == Placed(list[1..], x);
      } else {
        assert Placed(list, x)[1..] == list;
      }
    }
  }

  lemma {:induction false} WithoutHead(list: seq<Timeo>, k: nat)
    requires k < |list|
    ensures k == 0 ==> Without(list, k) == list[1..]
    ensures k > 0 ==> Without(list, k) == [list[0]] + Without(list[1..], k - 1)
  {
    if k > 0 {
      assert list[..k] == [list[0]] + list[1..][..k - 1];
    }
  }

  lemma {:induction false} DroppedShown(list: seq<Real>, h: Handler, arg: nat)
    ensures var s, k := ShownList(list), Find(ShownList(list), h, arg);
            && (k < |s| <==> Some(list, h, arg))
            && (k < |s| ==> ShownList(Dropped(list, h, arg)) == Without(s, k))
  {
    if list != [] {
      var s, k := ShownList(list), Find(ShownList(list), h, arg);
      ShownHead(list);
      assert s[1..] == ShownList(list[1..]);
      if k < |s| { WithoutHead(s, k); }
      if IsFor(list[0], h, arg) {
        assert list[0] in list;
      } else {
        DroppedShown(list[1..], h, arg);
        assert k == 1 + Find(s[1..], h, arg);
        assert Some(list, h, arg) <==> Some(list[1..], h, arg) by {
          assert forall x :: x in list <==> x == list[0] || x in list[1..];
        }
        ShownHead(Dropped(list, h, arg));
        assert Dropped(list, h, arg)[1..] == Dropped(list[1..], h, arg);
      }
    }
  }

  lemma {:induction false} PutShown(lo: nat, r: Reals, x: Real)
    requires From(lo, r.list) && lo <= x.At() < lo + HALF
    ensures Shown(Put(r, x)) == Added(Shown(r), Shown1(x)) && From(lo, Put(r, x).list)
  {
    PlacedShown(lo, r.list, x);
  }

  lemma {:induction false} DoesShown(lo: nat, now: nat, b: Bounds, r: Reals, a: Action)
    requires Good(lo, now, b, r) && b.Allows(Shown(r), a)
    ensures Shown(Does(r, a)) == Act(Shown(r), a) && Good(lo, now, b, Does(r, a))
  {
    assert Shown(Does(r, a)) == Act(Shown(r), a) && From(lo, Does(r, a).list) by { ActShown(lo, now, b, r, a); }
    ActReady(lo, now, b, Shown(r), a);
  }

  lemma {:induction false} ActShown(lo: nat, now: nat, b: Bounds, r: Reals, a: Action)
    requires Good(lo, now, b, r) && b.Allows(Shown(r), a)
    ensures Shown(Does(r, a)) == Act(Shown(r), a) && From(lo, Does(r, a).list)
  {
    match a
    case Wait(_) =>
    case Start(msecs, h, arg) => PutShown(lo, r, Real(r.clock, msecs, h, arg));
    case Cancel(h, arg) => DroppedShown(r.list, h, arg);
  }

  lemma {:induction false} DoesAllShown(lo: nat, now: nat, b: Bounds, r: Reals, acts: seq<Action>)
    requires Good(lo, now, b, r) && b.AllowsAll(Shown(r), acts)
    ensures Shown(DoesAll(r, acts)) == Acts(Shown(r), acts) && Good(lo, now, b, DoesAll(r, acts))
    decreases acts
  {
    if acts != [] {
      DoesShown(lo, now, b, r, acts[0]);
      DoesAllShown(lo, now, b, Does(r, acts[0]), acts[1..]);
    }
  }

  lemma {:induction false} OverShown(lo: nat, now: nat, b: Bounds, r: Reals)
    requires Good(lo, now, b, r)
    ensures Over(now, r) <==> Expired(now, Shown(r))
  {
    if r.list != [] {
      var x := r.list[0];
      assert x in r.list;
      DueOf(lo, x.At());
      HeadDue(lo, Shown(r).list, now);
    }
  }

  lemma {:induction false} NextShown(lo: nat, now: nat, b: Bounds, r: Reals, x: Real)
    requires Good(lo, now, b, r) && x.h.Cyclic? && b.Holds(x.h) && lo <= x.At() <= now
    ensures Shown1(Next(r, x)) == Again(Shown(r), Shown1(x)) && lo <= Next(r, x).At() < lo + HALF
  {
    DueOf(lo, x.At());
    NextCyclic(lo, r.clock, x.At() % U32, x.h.interval);
    AddWraps(x.At(), x.h.interval);
    AddWraps(r.clock, x.h.interval);
  }

  lemma {:induction false} ComesBackShown(lo: nat, now: nat, b: Bounds, r: Reals, x: Real)
    requires Good(lo, now, b, r) && x.h.Cyclic? && b.Holds(x.h) && lo <= x.At() <= now
    ensures Shown(Put(r, Next(r, x))) == Added(Shown(r), Again(Shown(r), Shown1(x)))
    ensures From(lo, Put(r, Next(r, x)).list)
  {
    NextShown(lo, now, b, r, x);
    PutShown(lo, r, Next(r, x));
  }

  lemma {:induction false} PopShown(lo: nat, now: nat, b: Bounds, r: Reals)
    requires Good(lo, now, b, r) && Expired(now, Shown(r))
    ensures var p := r.(list := r.list[1..], pool := r.pool + 1);
            Shown(p) == Popped(Shown(r)) && Good(lo, now, b, p)
    ensures lo <= r.list[0].At() <= now && b.Holds(r.list[0].h)
  {
    var x := r.list[0];
    assert x in r.list;
    ShownHead(r.list);
    PoppedReady(lo, now, b, Shown(r));
    DueOf(lo, x.At());
  }

  lemma {:induction false} FiresShown(lo: nat, now: nat, b: Bounds, r: Reals, acts: seq<Action>)
    requires Good(lo, now, b, r) && Expired(now, Shown(r))
    requires b.AllowsAll(Popped(Shown(r)), Done(Shown(r).list[0], acts))
    ensures Over(now, r) && Shown(Fires1(r, acts)) == Fired(Shown(r), acts) && Good(lo, now, b, Fires1(r, acts))
  {
    var x, p := r.list[0], r.(list := r.list[1..], pool := r.pool + 1);
    PopShown(lo, now, b, r);
    DoesAllShown(lo, now, b, p, Done(Shown1(x), acts));
    if x.h.Cyclic? {
      ComesBackShown(lo, now, b, DoesAll(p, acts), x);
    }
    assert Ready(lo, now, b, Fired(Shown(r), acts)) by { FiredReady(lo, now, b, Shown(r), acts); }
  }

  // ---------- one check, and runs of them ----------

  /** A check on the timers as shown lets those fire that are shown of a check on the real ones, and each of these
    * has waited for at least its delay. */
  lemma {:induction false} CheckIsReal(lo: nat, now: nat, b: Bounds, r: Reals, works: seq<seq<Action>>)
    returns (fired: seq<Real>, t: Reals)
    requires Good(lo, now, b, r) && Goes(now, Shown(r), works) && Within(b, now, Shown(r), works)
    ensures Checks(now, r, works, fired, t) && Good(lo, now, b, t)
    ensures After(now, Shown(r), works) == Shown(t) && TraceOf(now, Shown(r), works).run == ShownList(fired)
    ensures forall x | x in fired :: x.since + x.delay <= now
    ensures Ends(now, Shown(r), works) <==> !Over(now, t)
    decreases works
  {
    if works == [] {
      fired, t := [], r;
      OverShown(lo, now, b, r);
    } else {
      FiresShown(lo, now, b, r, works[0]);
      var rest;
      rest, t := CheckIsReal(lo, now, b, Fires1(r, works[0]), works[1..]);
      fired := [r.list[0]] + rest;
    }
  }

  lemma {:induction false} ChecksUnique(now: nat, r: Reals, works: seq<seq<Action>>, fired: seq<Real>, t: Reals,
                                        fired': seq<Real>, t': Reals)
    requires Checks(now, r, works, fired, t) && Checks(now, r, works, fired', t')
    ensures fired == fired' && t == t'
    decreases works
  {
    if works != [] {
      ChecksUnique(now, Fires1(r, works[0]), works[1..], fired[1..], t, fired'[1..], t');
      assert fired == [fired[0]] + fired[1..] && fired' == [fired'[0]] + fired'[1..];
    }
  }

  /** Between two checks the application starts and cancels timers; a check returns when nothing is due. */
  datatype Episode = Between(acts: seq<Action>) | Check(works: seq<seq<Action>>)

  ghost predicate Turns(r: Reals, e: Episode, fired: seq<Real>, t: Reals) {
    match e
    case Between(acts) => fired == [] && t == DoesAll(r, acts)
    case Check(works) => Checks(r.clock, r, works, fired, t) && !Over(r.clock, t)
  }

  /** The same on the timers of 32 bits, where the delays keep to the bounds. */
  ghost predicate ShownTurns(b: Bounds, s: Timers, e: Episode, run: seq<Timeo>, t: Timers) {
    match e
    case Between(acts) => b.AllowsAll(s, acts) && run == [] && t == Acts(s, acts)
    case Check(works) =>
      && Ends(s.clock, s, works) && Within(b, s.clock, s, works)
      && run == TraceOf(s.clock, s, works).run && t == After(s.clock, s, works)
  }

  /** What is pending and what can be started in an episode lies within 2^31 ms from lo on. */
  ghost predicate Spaced(lo: nat, b: Bounds, r: Reals) {
    && lo <= r.clock <= b.horizon && b.horizon + b.max < lo + HALF && From(lo, r.list)
    && forall x | x in r.list :: b.Holds(x.h)
  }

  ghost predicate InOrder(list: seq<Real>) {
    forall i, j | 0 <= i < j < |list| :: list[i].At() <= list[j].At()
  }

  lemma {:induction false} GoodIs(lo: nat, now: nat, b: Bounds, r: Reals)
    requires From(lo, r.list)
    ensures Dues(lo, ShownList(r.list)) == seq(|r.list|, i requires 0 <= i < |r.list| => r.list[i].At())
    ensures Good(lo, now, b, r) ==> InOrder(r.list)
    ensures Spaced(lo, b, r) && InOrder(r.list) ==> Good(lo, r.clock, b, r)
  {
    var s := ShownList(r.list);
    forall i | 0 <= i < |s| ensures Due(lo, s[i].time) == r.list[i].At() {
      assert r.list[i] in r.list;
      DueOf(lo, r.list[i].At());
    }
    assert Dues(lo, s) == seq(|r.list|, i requires 0 <= i < |r.list| => r.list[i].At());
    forall d | d in Dues(lo, s) ensures From(lo, r.list) ==> d < lo + HALF {
      var i :| 0 <= i < |s| && Dues(lo, s)[i] == d;
      assert r.list[i] in r.list;
    }
    if Good(lo, now, b, r) {
      forall i, j | 0 <= i < j < |s| ensures r.list[i].At() <= r.list[j].At() {
        assert Dues(lo, s)[i] <= Dues(lo, s)[j];
      }
    }
  }

  /** One episode of both machines. */
  lemma {:induction false} TurnIsReal(lo: nat, b: Bounds, r: Reals, e: Episode, fired: seq<Real>, r': Reals,
                                      run: seq<Timeo>, t: Timers)
    requires Spaced(lo, b, r) && InOrder(r.list) && Turns(r, e, fired, r') && ShownTurns(b, Shown(r), e, run, t)
    ensures t == Shown(r') && run == ShownList(fired) && InOrder(r'.list)
    ensures forall x | x in fired :: x.since + x.delay <= r.clock
  {
    GoodIs(lo, r.clock, b, r);
    match e
    case Between(acts) =>
      DoesAllShown(lo, r.clock, b, r, acts);
      GoodIs(lo, r.clock, b, r');
    case Check(works) =>
      var fired', t' := CheckIsReal(lo, r.clock, b, r, works);
      ChecksUnique(r.clock, r, works, fired, r', fired', t');
      GoodIs(lo, r.clock, b, r');
  }

  /** A run of the real timers, from none on; fired[k] are those that fire in episode k. */
  ghost predicate RealRun(reals: seq<Reals>, eps: seq<Episode>, fired: seq<seq<Real>>) {
    && |reals| == |eps| + 1 && |fired| == |eps| && reals[0].list == []
    && forall k {:trigger eps[k]} | 0 <= k < |eps| :: Turns(reals[k], eps[k], fired[k], reals[k + 1])
  }

  ghost predicate ShownRun(bs: seq<Bounds>, states: seq<Timers>, eps: seq<Episode>, runs: seq<seq<Timeo>>) {
    && |states| == |eps| + 1 && |runs| == |eps| == |bs| && states[0].list == []
    && forall k {:trigger eps[k]} | 0 <= k < |eps| :: ShownTurns(bs[k], states[k], eps[k], runs[k], states[k + 1])
  }

  /** At every episode the pending times fit some window; the windows may move on with the clock. */
  ghost predicate SpacedRun(los: seq<nat>, bs: seq<Bounds>, reals: seq<Reals>) {
    && |los| == |bs| < |reals|
    && forall k {:trigger los[k]} | 0 <= k < |los| :: Spaced(los[k], bs[k], reals[k])
  }

  /** Over every run of any length, however often the clock wraps: the list of sys_timeout_abs shows the real
    * timers, and those that fire are those that fire on the real clock, none before its delay has passed. */
  lemma {:induction false} RunIsReal(los: seq<nat>, bs: seq<Bounds>, reals: seq<Reals>, eps: seq<Episode>,
                                     fired: seq<seq<Real>>, states: seq<Timers>, runs: seq<seq<Timeo>>, k: nat)
    requires RealRun(reals, eps, fired) && ShownRun(bs, states, eps, runs) && SpacedRun(los, bs, reals)
    requires states[0].pool == reals[0].pool && states[0].clock == reals[0].clock && k <= |eps|
    ensures states[k] == Shown(reals[k]) && InOrder(reals[k].list)
    ensures forall m {:trigger runs[m]} | 0 <= m < k :: runs[m] == ShownList(fired[m])
    ensures forall m, x {:trigger x in fired[m]} | 0 <= m < k && x in fired[m] :: x.since + x.delay <= states[m].clock
  {
    if k > 0 {
      var m := k - 1;
      RunIsReal(los, bs, reals, eps, fired, states, runs, m);
      assert Turns(reals[m], eps[m], fired[m], reals[m + 1]) && Spaced(los[m], bs[m], reals[m]);
      TurnIsReal(los[m], bs[m], reals[m], eps[m], fired[m], reals[k], runs[m], states[k]);
    }
  }
}
