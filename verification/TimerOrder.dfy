/** The timers of core/timeouts.c in the order of a 32-bit clock that wraps around. */
module TimerOrder {
  import opened Words

  /** What runs when a timer expires: nothing; some function; or lwip_cyclic_timer for some function with
    * its interval. The functions may start and cancel timers, their own among them. */
  datatype Handler = NoHandler | Func(id: nat) | Cyclic(interval: nat, id: nat)

  datatype Timeo = Timeo(time: u32, h: Handler, arg: nat)

  const MAX_TIMEOUT: nat := 0x7FFF_FFFF
  const HALF: nat := 0x8000_0000

  /** TIME_LESS_THAN. */
  predicate TimeLess(t: u32, compareTo: u32) {
    (t - compareTo) % U32 > MAX_TIMEOUT
  }

  // ---------- the wrapping order and the real one ----------

  /** The point in unbounded time, at lo or after it, that the wrapped time t stands for. */
  function Due(lo: nat, t: u32): nat {
    lo + (t - lo) % U32
  }

  lemma {:induction false} DueWraps(lo: nat, t: u32)
    ensures Due(lo, t) % U32 == t && lo <= Due(lo, t) < lo + U32
  {
  }

  lemma {:induction false} DueOf(lo: nat, d: nat)
    requires lo <= d < lo + U32
    ensures Due(lo, d % U32) == d
  {
  }

  /** Within a window of 2^31 the macro compares real times. */
  lemma {:induction false} TimeLessIs(lo: nat, t: u32, c: u32)
    requires Due(lo, t) < lo + HALF && Due(lo, c) < lo + HALF
    ensures TimeLess(t, c) <==> Due(lo, t) < Due(lo, c)
  {
  }

  function Dues(lo: nat, list: seq<Timeo>): seq<nat> {
    seq(|list|, i requires 0 <= i < |list| => Due(lo, list[i].time))
  }

  /** All pending times lie within a window of 2^31 from lo on. */
  ghost predicate InWindow(lo: nat, list: seq<Timeo>) {
    forall d | d in Dues(lo, list) :: d < lo + HALF
  }

  ghost predicate SortedNats(s: seq<nat>) {
    forall i, j | 0 <= i < j < |s| :: s[i] <= s[j]
  }

  ghost predicate Sorted(lo: nat, list: seq<Timeo>) {
    SortedNats(Dues(lo, list))
  }

  // ---------- insertion ----------

  /** The first position whose timer is later than a time. */
  function Position(list: seq<Timeo>, time: u32): (k: nat)
    ensures k <= |list|
    ensures forall i | 0 <= i < k :: !TimeLess(time, list[i].time)
    ensures k < |list| ==> TimeLess(time, list[k].time)
  {
    if list == [] || TimeLess(time, list[0].time) then 0 else 1 + Position(list[1..], time)
  }

  function Inserted(list: seq<Timeo>, x: Timeo): seq<Timeo> {
    var k := Position(list, x.time);
    list[..k] + [x] + list[k..]
  }

  lemma {:induction false} PositionIs(list: seq<Timeo>, time: u32, k: nat)
    requires k <= |list| && (k < |list| ==> TimeLess(time, list[k].time))
    requires forall i | 0 <= i < k :: !TimeLess(time, list[i].time)
    ensures Position(list, time) == k
  {
  }

  lemma {:induction false} InsertedDues(lo: nat, list: seq<Timeo>, x: Timeo)
    ensures var k := Position(list, x.time);
            Dues(lo, Inserted(list, x)) == Dues(lo, list)[..k] + [Due(lo, x.time)] + Dues(lo, list)[k..]
  {
  }

  lemma {:induction false} InsertedNats(s: seq<nat>, d: nat, k: nat)
    requires SortedNats(s) && k <= |s|
    requires (forall i | 0 <= i < k :: s[i] <= d) && forall i | k <= i < |s| :: d <= s[i]
    ensures SortedNats(s[..k] + [d] + s[k..])
  {
  }

  /** Insertion keeps a list sorted across the wrap of the clock, and is stable: the new timer comes
    * behind all that are due no later and in front of all that are due later. */
  lemma {:induction false} InsertedSorted(lo: nat, list: seq<Timeo>, x: Timeo)
    requires InWindow(lo, list) && Sorted(lo, list) && Due(lo, x.time) < lo + HALF
    ensures InWindow(lo, Inserted(list, x)) && Sorted(lo, Inserted(list, x))
    ensures forall i | 0 <= i < |list| :: i < Position(list, x.time) <==> Dues(lo, list)[i] <= Due(lo, x.time)
  {
    var k, s, d := Position(list, x.time), Dues(lo, list), Due(lo, x.time);
    forall i | 0 <= i < |list| ensures i < k <==> s[i] <= d {
      assert s[i] in s;
      TimeLessIs(lo, x.time, list[i].time);
      if k < |list| {
        assert s[k] in s;
        TimeLessIs(lo, x.time, list[k].time);
        assert k <= i ==> s[k] <= s[i];
      }
    }
    InsertedNats(s, d, k);
    InsertedDues(lo, list, x);
    forall e | e in s[..k] + [d] + s[k..] ensures e < lo + HALF {
      assert e in s || e == d;
    }
  }

  // ---------- how often a timer can still fire ----------

  /** How often a pending timer can fire in a check that started at time now. */
  function Weight1(lo: nat, now: nat, t: Timeo): nat {
    var d := Due(lo, t.time);
    if !t.h.Cyclic? then (if d <= now then 1 else 0)
    else if d < now then 2 else if d == now then 1 else 0
  }

  datatype Choice = All | Only(arg: nat) {
    predicate Has(t: Timeo) {
      All? || t.arg == arg
    }
  }

  function Weight(lo: nat, now: nat, list: seq<Timeo>, w: Choice): nat {
    if list == [] then 0
    else (if w.Has(list[0]) then Weight1(lo, now, list[0]) else 0) + Weight(lo, now, list[1..], w)
  }

  lemma {:induction false} WeightConcat(lo: nat, now: nat, a: seq<Timeo>, b: seq<Timeo>, w: Choice)
    ensures Weight(lo, now, a + b, w) == Weight(lo, now, a, w) + Weight(lo, now, b, w)
  {
    if a == [] {
      assert a + b == b;
    } else {
      assert (a + b)[1..] == a[1..] + b;
      WeightConcat(lo, now, a[1..], b, w);
    }
  }

  lemma {:induction false} WeightInserted(lo: nat, now: nat, list: seq<Timeo>, x: Timeo, w: Choice)
    ensures Weight(lo, now, Inserted(list, x), w)
            == Weight(lo, now, list, w) + if w.Has(x) then Weight1(lo, now, x) else 0
  {
    var k := Position(list, x.time);
    WeightConcat(lo, now, list[..k] + [x], list[k..], w);
    WeightConcat(lo, now, list[..k], [x], w);
    WeightConcat(lo, now, list[..k], list[k..], w);
    assert list == list[..k] + list[k..];
    assert [x][1..] == [];
  }

  /** How many of these timers have this argument. */
  function Fires(fired: seq<Timeo>, arg: nat): nat {
    if fired == [] then 0 else (if fired[0].arg == arg then 1 else 0) + Fires(fired[1..], arg)
  }

  /** How many timers are a given cyclic timer. */
  function Copies(list: seq<Timeo>, h: Handler, arg: nat): nat {
    if list == [] then 0 else Copy(list[0], h, arg) + Copies(list[1..], h, arg)
  }

  function Copy(t: Timeo, h: Handler, arg: nat): nat {
    if t.h.Cyclic? && t.h == h && t.arg == arg then 1 else 0
  }

  lemma {:induction false} CopiesConcat(a: seq<Timeo>, b: seq<Timeo>, h: Handler, arg: nat)
    ensures Copies(a + b, h, arg) == Copies(a, h, arg) + Copies(b, h, arg)
  {
    if a == [] {
      assert a + b == b;
    } else {
      assert (a + b)[1..] == a[1..] + b;
      CopiesConcat(a[1..], b, h, arg);
    }
  }

  lemma {:induction false} CopiesInserted(list: seq<Timeo>, x: Timeo, h: Handler, arg: nat)
    ensures Copies(Inserted(list, x), h, arg) == Copies(list, h, arg) + Copy(x, h, arg)
  {
    var k := Position(list, x.time);
    CopiesConcat(list[..k] + [x], list[k..], h, arg);
    CopiesConcat(list[..k], [x], h, arg);
    CopiesConcat(list[..k], list[k..], h, arg);
    assert list == list[..k] + list[k..];
    assert [x][1..] == [];
  }

  lemma {:induction false} InsertedContents(l: seq<Timeo>, x: Timeo)
    ensures multiset(Inserted(l, x)) == multiset(l) + multiset{x}
    ensures forall u :: u in Inserted(l, x) <==> u in l || u == x
  {
    var k := Position(l, x.time);
    assert l == l[..k] + l[k..];
  }

  lemma {:induction false} RemovedSorted(lo: nat, l: seq<Timeo>, k: nat)
    requires InWindow(lo, l) && Sorted(lo, l) && k < |l|
    ensures InWindow(lo, l[..k] + l[k + 1..]) && Sorted(lo, l[..k] + l[k + 1..])
  {
    var s, r := Dues(lo, l), Dues(lo, l[..k] + l[k + 1..]);
    assert r == s[..k] + s[k + 1..];
    forall d | d in r ensures d < lo + HALF {
      assert d in s;
    }
  }

  lemma {:induction false} HeadDue(lo: nat, list: seq<Timeo>, now: nat)
    requires list != [] && InWindow(lo, list) && Sorted(lo, list) && lo <= now < lo + HALF
    ensures TimeLess(now % U32, list[0].time) <==> now < Due(lo, list[0].time)
    ensures forall t | t in list :: Due(lo, list[0].time) <= Due(lo, t.time)
  {
    var s := Dues(lo, list);
    assert s[0] in s;
    DueOf(lo, now);
    TimeLessIs(lo, now % U32, list[0].time);
    forall t | t in list ensures s[0] <= Due(lo, t.time) {
      var i :| 0 <= i < |list| && list[i] == t;
      assert s[i] == Due(lo, t.time);
    }
  }

  lemma {:induction false} NextCyclic(lo: nat, clock: nat, dueTime: u32, interval: nat)
    requires Due(lo, dueTime) <= clock && clock + interval < lo + HALF
    ensures Due(lo, (dueTime + interval) % U32) == Due(lo, dueTime) + interval
    ensures Due(lo, (clock % U32 + interval) % U32) == clock + interval
    ensures TimeLess((dueTime + interval) % U32, clock % U32) <==> Due(lo, dueTime) + interval < clock
  {
    var d := Due(lo, dueTime);
    DueWraps(lo, dueTime);
    AddWraps(d, interval);
    DueOf(lo, d + interval);
    AddWraps(clock, interval);
    DueOf(lo, clock + interval);
    DueOf(lo, clock);
    TimeLessIs(lo, (dueTime + interval) % U32, clock % U32);
  }

  /** Once all that was due has fired the window may move up to now, ready for the next check. */
  lemma {:induction false} WindowMoves(lo: nat, list: seq<Timeo>, now: nat)
    requires InWindow(lo, list) && lo <= now && forall t | t in list :: now <= Due(lo, t.time)
    ensures Dues(now, list) == Dues(lo, list) && InWindow(now, list)
  {
    forall i | 0 <= i < |list| ensures Dues(now, list)[i] == Dues(lo, list)[i] {
      assert list[i] in list && Dues(lo, list)[i] in Dues(lo, list);
      DueWraps(lo, list[i].time);
      DueOf(now, Due(lo, list[i].time));
    }
  }

  /** A timer whose argument no other timer shares fires at most twice in one check. */
  lemma {:induction false} AtMostTwice(lo: nat, now: nat, list: seq<Timeo>, arg: nat)
    ensures Weight(lo, now, list, Only(arg)) <= 2 * |Having(list, arg)|
  {
    if list != [] {
      AtMostTwice(lo, now, list[1..], arg);
    }
  }

  function Having(list: seq<Timeo>, arg: nat): seq<Timeo> {
    if list == [] then [] else (if list[0].arg == arg then [list[0]] else []) + Having(list[1..], arg)
  }

  lemma {:induction false} AddWraps(x: nat, y: nat)
    ensures (x % U32 + y) % U32 == (x + y) % U32
  {
  }
}
