/** How long a socket descriptor lives in api/sockets.c when several threads use and close it (full duplex). */
module SocketLifetime {
  import opened Words

  /** A netconn, or NULL. */
  datatype Conn = NoConn | To(id: nat)

  /** fd_free_pending. */
  datatype Pending = NotPending | FreePending(tcp: bool)

  /** The fields of a socket that decide over its life: conn, fd_used and fd_free_pending. */
  datatype Sock = Sock(conn: Conn, used: u8, pending: Pending)

  // ---------- what the protected sections do to one socket ----------

  /** sock_inc_used. */
  function IncUsed(s: Sock): (r: (Sock, bool))
    requires s.used < 255
  {
    if s.pending.FreePending? then (s, false) else (s.(used := s.used + 1), true)
  }

  /** free_socket_locked: the netconn is handed out when nobody else uses the socket. */
  function FreeLocked(s: Sock, tcp: bool): (r: (Sock, Conn))
    requires s.used > 0
  {
    if s.used > 1 then (s.(used := s.used - 1, pending := FreePending(tcp)), NoConn)
    else (s.(used := 0, conn := NoConn), s.conn)
  }

  /** The section of done_socket. */
  function Done(s: Sock): (r: (Sock, Conn))
    requires s.used > 0
  {
    if s.used == 1 && s.pending.FreePending? then (s.(used := 0, conn := NoConn), s.conn)
    else (s.(used := s.used - 1), NoConn)
  }

  /** Whether alloc_socket takes the slot. */
  predicate Unused(s: Sock) {
    s.conn == NoConn && s.used == 0
  }

  class SocketTable {
    const sockets: array<Sock>

    constructor (n: nat)
      ensures fresh(sockets) && sockets.Length == n
      ensures sockets[..] == seq(n, _ => Sock(NoConn, 0, NotPending))
    {
      sockets := new Sock[n](_ => Sock(NoConn, 0, NotPending));
    }

    /** sock_inc_used and sock_inc_used_locked. */
    method SockIncUsed(i: nat) returns (ret: bool)
      requires i < sockets.Length && sockets[i].used < 255
      modifies sockets
      ensures sockets[..] == old(sockets[..])[i := IncUsed(old(sockets[i])).0] && ret == IncUsed(old(sockets[i])).1
      ensures ret <==> old(sockets[i]).pending.NotPending?
      ensures sockets[i].used == old(sockets[i]).used + if ret then 1 else 0
    {
      if sockets[i].pending.FreePending? {
        ret := false;
      } else {
        sockets[i] := sockets[i].(used := sockets[i].used + 1);
        ret := true;
        assert sockets[i].used != 0;
      }
    }

    /** done_socket; conn is to be deleted outside the section, as the close meant it that left the free pending. */
    method DoneSocket(i: nat) returns (conn: Conn, isTcp: bool)
      requires i < sockets.Length && sockets[i].used > 0
      modifies sockets
      ensures sockets[..] == old(sockets[..])[i := Done(old(sockets[i])).0] && conn == Done(old(sockets[i])).1
      ensures old(sockets[i]).used == 1 && old(sockets[i]).pending.FreePending? ==>
                isTcp == old(sockets[i]).pending.tcp
    {
      conn, isTcp := NoConn, false;
      sockets[i] := sockets[i].(used := sockets[i].used - 1);
      if sockets[i].used == 0 {
        if sockets[i].pending.FreePending? {
          sockets[i] := sockets[i].(used := 1);
          isTcp := sockets[i].pending.tcp;
          conn := FreeSocketLocked(i, isTcp);
        }
      }
    }

    /** free_socket_locked. */
    method FreeSocketLocked(i: nat, tcp: bool) returns (conn: Conn)
      requires i < sockets.Length && sockets[i].used > 0
      modifies sockets
      ensures sockets[..] == old(sockets[..])[i := FreeLocked(old(sockets[i]), tcp).0]
          && conn == FreeLocked(old(sockets[i]), tcp).1
    {
      sockets[i] := sockets[i].(used := sockets[i].used - 1);
      if sockets[i].used > 0 {
        sockets[i] := sockets[i].(pending := FreePending(tcp));
        return NoConn;
      }
      conn := sockets[i].conn;
      sockets[i] := sockets[i].(conn := NoConn);
    }

    /** alloc_socket: the first slot without netconn and users. */
    method AllocSocket(newconn: nat) returns (i: nat)
      modifies sockets
      ensures i <= sockets.Length && forall j | 0 <= j < i :: !Unused(old(sockets[j]))
      ensures i < sockets.Length ==>
          Unused(old(sockets[i]))
          && sockets[..] == old(sockets[..])[i := Sock(To(newconn), 1, NotPending)]
      ensures i == sockets.Length ==> sockets[..] == old(sockets[..])
    {
      i := 0;
      while i < sockets.Length
        invariant 0 <= i <= sockets.Length && sockets[..] == old(sockets[..])
        invariant forall j | 0 <= j < i :: !Unused(old(sockets[j]))
      {
        if sockets[i].conn == NoConn && sockets[i].used == 0 {
          sockets[i] := Sock(To(newconn), 1, NotPending);
          return;
        }
        i := i + 1;
      }
    }
  }

  // ---------- any number of threads ----------

  /** A use of a socket that some thread has counted and not yet given up; conn is the netconn it has read. */
  datatype Use = Use(slot: nat, conn: Conn)

  /** All sockets and uses; the netconns taken out of a socket and still to be deleted, those deleted, those
    * that a close has been called for, and those that sockets have been made for. */
  datatype State = State(socks: seq<Sock>, uses: seq<Use>, doomed: multiset<nat>, deleted: multiset<nat>,
                         closed: set<nat>, made: set<nat>)

  /** One protected section or one access of some thread. */
  datatype Event =
    | Acquire(i: nat)           // tryget_socket_unconn
    | Read(k: nat)              // the test of sock->conn in tryget_socket
    | Leave(k: nat)             // done_socket
    | Close(k: nat, tcp: bool)  // free_socket, called by lwip_close
    | Make(i: nat, c: nat)      // alloc_socket's turn at one slot
    | Delete(c: nat)            // netconn_delete, called by free_socket_free_elements

  function Without(uses: seq<Use>, k: nat): seq<Use>
    requires k < |uses|
  {
    uses[..k] + uses[k + 1..]
  }

  function Users(uses: seq<Use>, i: nat): nat {
    if uses == [] then 0 else (if uses[0].slot == i then 1 else 0) + Users(uses[1..], i)
  }

  function Doom(c: Conn): multiset<nat> {
    if c.To? then multiset{c.id} else multiset{}
  }

  ghost predicate Enabled(s: State, e: Event) {
    match e
    case Acquire(i) => i < |s.socks| && s.socks[i].used < 255
    case Read(k) => k < |s.uses| && s.uses[k].slot < |s.socks|
    case Leave(k) => k < |s.uses| && s.uses[k].slot < |s.socks| && s.socks[s.uses[k].slot].used > 0
    case Close(k, tcp) => k < |s.uses| && s.uses[k].conn.To? && s.uses[k].slot < |s.socks|
        && s.socks[s.uses[k].slot].used > 0
    case Make(i, c) => i < |s.socks| && c !in s.made
    case Delete(c) => s.doomed[c] > 0
  }

  function Next(s: State, e: Event): State
    requires Enabled(s, e)
  {
    match e
    case Acquire(i) =>
      var (sock, ok) := IncUsed(s.socks[i]);
      if ok then s.(socks := s.socks[i := sock], uses := s.uses + [Use(i, NoConn)]) else s
    case Read(k) =>
      var u := s.uses[k];
      s.(uses := s.uses[k := u.(conn := s.socks[u.slot].conn)])
    case Leave(k) =>
      var i := s.uses[k].slot;
      var (sock, conn) := Done(s.socks[i]);
      s.(socks := s.socks[i := sock], uses := Without(s.uses, k), doomed := s.doomed + Doom(conn))
    case Close(k, tcp) =>
      var i := s.uses[k].slot;
      var (sock, conn) := FreeLocked(s.socks[i], tcp);
      s.(socks := s.socks[i := sock], uses := Without(s.uses, k), doomed := s.doomed + Doom(conn),
         closed := s.closed + {s.uses[k].conn.id})
    case Make(i, c) =>
      if Unused(s.socks[i]) then
        s.(socks := s.socks[i := Sock(To(c), 1, NotPending)], uses := s.uses + [Use(i, To(c))], made := s.made + {c})
      else s
    case Delete(c) => s.(doomed := s.doomed - multiset{c}, deleted := s.deleted + multiset{c})
  }

  // ---------- the invariant ----------

  /** How many sockets lead to a netconn. */
  function Attached(socks: seq<Sock>, c: nat): nat {
    if socks == [] then 0 else (if socks[0].conn == To(c) then 1 else 0) + Attached(socks[1..], c)
  }

  ghost predicate SlotOk(s: State, i: nat)
    requires i < |s.socks|
  {
    var k := s.socks[i];
    && k.used == Users(s.uses, i)
    && (k.pending.FreePending? ==> (k.used > 0 <==> k.conn.To?))
    && (k.conn.To? ==> (k.pending.FreePending? <==> k.conn.id in s.closed))
  }

  /** The netconn that a thread has read stays the socket's netconn. */
  ghost predicate UseOk(s: State, u: Use) {
    u.slot < |s.socks| && (u.conn.To? ==> s.socks[u.slot].conn == u.conn)
  }

  /** Every netconn that has a socket made for it is in one place; where it has left the socket, it was closed. */
  ghost predicate ConnOk(s: State, c: nat) {
    && Attached(s.socks, c) + s.doomed[c] + s.deleted[c] == (if c in s.made then 1 else 0)
    && (s.doomed[c] + s.deleted[c] > 0 ==> c in s.closed)
    && (c in s.closed ==> c in s.made)
  }

  ghost predicate Ok(s: State) {
    && (forall i {:trigger SlotOk(s, i)} | 0 <= i < |s.socks| :: SlotOk(s, i))
    && (forall k {:trigger s.uses[k]} | 0 <= k < |s.uses| :: UseOk(s, s.uses[k]))
    && (forall c {:trigger ConnOk(s, c)} :: ConnOk(s, c))
  }

  // ---------- counting ----------

  lemma {:induction false} UsersConcat(a: seq<Use>, b: seq<Use>, i: nat)
    ensures Users(a + b, i) == Users(a, i) + Users(b, i)
  {
    if a == [] {
      assert a + b == b;
    } else {
      assert (a + b)[1..] == a[1..] + b;
      UsersConcat(a[1..], b, i);
    }
  }

  lemma {:induction false} UsersOne(u: Use, i: nat)
    ensures Users([u], i) == if u.slot == i then 1 else 0
  {
    assert [u][1..] == [];
  }

  lemma {:induction false} UsersWithout(uses: seq<Use>, k: nat, i: nat)
    requires k < |uses|
    ensures Users(uses, i) == Users(Without(uses, k), i) + if uses[k].slot == i then 1 else 0
  {
    UsersConcat(uses[..k], uses[k + 1..], i);
    UsersConcat(uses[..k], [uses[k]], i);
    UsersConcat(uses[..k] + [uses[k]], uses[k + 1..], i);
    UsersOne(uses[k], i);
    assert uses == uses[..k] + [uses[k]] + uses[k + 1..];
  }

  lemma {:induction false} UsersRead(uses: seq<Use>, k: nat, c: Conn, i: nat)
    requires k < |uses|
    ensures Users(uses[k := uses[k].(conn := c)], i) == Users(uses, i)
  {
    UsersWithout(uses, k, i);
    UsersWithout(uses[k := uses[k].(conn := c)], k, i);
    assert Without(uses[k := uses[k].(conn := c)], k) == Without(uses, k);
  }

  lemma {:induction false} AttachedSet(socks: seq<Sock>, i: nat, x: Sock, c: nat)
    requires i < |socks|
    ensures Attached(socks[i := x], c) + (if socks[i].conn == To(c) then 1 else 0) ==
        Attached(socks, c) + if x.conn == To(c) then 1 else 0
  {
    if i > 0 {
      assert socks[i := x][1..] == socks[1..][i - 1 := x];
      AttachedSet(socks[1..], i - 1, x, c);
    } else {
      assert socks[i := x][1..] == socks[1..];
    }
  }

  lemma {:induction false} AttachedSome(socks: seq<Sock>, i: nat)
    requires i < |socks| && socks[i].conn.To?
    ensures Attached(socks, socks[i].conn.id) >= 1
  {
    if i > 0 {
      AttachedSome(socks[1..], i - 1);
    }
  }

  lemma {:induction false} AttachedTwo(socks: seq<Sock>, i: nat, j: nat)
    requires i < j < |socks| && socks[i].conn.To? && socks[j].conn == socks[i].conn
    ensures Attached(socks, socks[i].conn.id) >= 2
  {
    if i > 0 {
      AttachedTwo(socks[1..], i - 1, j - 1);
    } else {
      AttachedSome(socks[1..], j - 1);
    }
  }

  lemma {:induction false} UsersSome(uses: seq<Use>, k: nat)
    requires k < |uses|
    ensures Users(uses, uses[k].slot) >= 1
  {
    UsersWithout(uses, k, uses[k].slot);
  }

  lemma {:induction false} UsersTwo(uses: seq<Use>, j: nat, k: nat)
    requires j < |uses| && k < |uses| && j != k && uses[j].slot == uses[k].slot
    ensures Users(uses, uses[k].slot) >= 2
  {
    UsersWithout(uses, k, uses[k].slot);
    UsersSome(Without(uses, k), if j < k then j else j - 1);
  }

  // ---------- every step keeps the invariant ----------

  lemma {:induction false} AcquireKeeps(s: State, i: nat)
    requires Ok(s) && Enabled(s, Acquire(i))
    ensures Ok(Next(s, Acquire(i)))
  {
    var t := Next(s, Acquire(i));
    assert SlotOk(s, i);
    forall j {:trigger SlotOk(t, j)} | 0 <= j < |t.socks| ensures SlotOk(t, j) {
      assert SlotOk(s, j);
      UsersConcat(s.uses, [Use(i, NoConn)], j);
      UsersOne(Use(i, NoConn), j);
    }
    forall c {:trigger ConnOk(t, c)} ensures ConnOk(t, c) {
      assert ConnOk(s, c);
      AttachedSet(s.socks, i, t.socks[i], c);
    }
    forall k {:trigger t.uses[k]} | 0 <= k < |t.uses| ensures UseOk(t, t.uses[k]) {
      assert k < |s.uses| ==> UseOk(s, s.uses[k]);
    }
  }

  lemma {:induction false} ReadKeeps(s: State, k: nat)
    requires Ok(s) && Enabled(s, Read(k))
    ensures Ok(Next(s, Read(k)))
  {
    var t, u := Next(s, Read(k)), s.uses[k];
    forall j {:trigger SlotOk(t, j)} | 0 <= j < |t.socks| ensures SlotOk(t, j) {
      assert SlotOk(s, j);
      UsersRead(s.uses, k, s.socks[u.slot].conn, j);
    }
    forall c {:trigger ConnOk(t, c)} ensures ConnOk(t, c) {
      assert ConnOk(s, c);
    }
    forall m {:trigger t.uses[m]} | 0 <= m < |t.uses| ensures UseOk(t, t.uses[m]) {
      assert UseOk(s, s.uses[m]);
    }
  }

  /** The last use of a closed socket takes its netconn out; no other use does. */
  ghost predicate Gone(s: State, k: nat, t: State)
    requires k < |s.uses| && s.uses[k].slot < |s.socks| && |t.socks| == |s.socks|
  {
    var i := s.uses[k].slot;
    var a, b := s.socks[i], t.socks[i];
    && t.uses == Without(s.uses, k) && t.socks == s.socks[i := b] && a.used > 0 && b.used == a.used - 1
    && t.deleted == s.deleted && t.made == s.made && s.closed <= t.closed
    && (forall c | c in t.closed && c !in s.closed :: a.conn == To(c))
    && (b.pending.FreePending? ==> (b.used > 0 <==> b.conn.To?))
    && (b.conn.To? ==> (b.pending.FreePending? <==> b.conn.id in t.closed))
    && if b.conn == a.conn then t.doomed == s.doomed
       else
         a.used == 1 && b.conn == NoConn && a.conn.To? && a.conn.id in t.closed
         && t.doomed == s.doomed + multiset{a.conn.id}
  }

  lemma {:induction false} GoneKeeps(s: State, k: nat, t: State)
    requires Ok(s) && k < |s.uses| && s.uses[k].slot < |s.socks| && |t.socks| == |s.socks| && Gone(s, k, t)
    ensures Ok(t)
  {
    var i := s.uses[k].slot;
    assert SlotOk(s, i);
    forall j {:trigger SlotOk(t, j)} | 0 <= j < |t.socks| ensures SlotOk(t, j) {
      assert SlotOk(s, j);
      UsersWithout(s.uses, k, j);
      if j != i && t.socks[j].conn.To? && t.socks[j].conn.id in t.closed {
        GoneOther(s, k, t, j);
      }
    }
    forall c {:trigger ConnOk(t, c)} ensures ConnOk(t, c) {
      assert ConnOk(s, c);
      AttachedSet(s.socks, i, t.socks[i], c);
      if s.socks[i].conn == To(c) { AttachedSome(s.socks, i); }
    }
    forall m {:trigger t.uses[m]} | 0 <= m < |t.uses| ensures UseOk(t, t.uses[m]) {
      var n := if m < k then m else m + 1;
      assert t.uses[m] == s.uses[n] && UseOk(s, s.uses[n]);
      if s.uses[n].slot == i { UsersTwo(s.uses, n, k); }
    }
  }

  lemma {:induction false} GoneOther(s: State, k: nat, t: State, j: nat)
    requires Ok(s) && k < |s.uses| && s.uses[k].slot < |s.socks| && |t.socks| == |s.socks| && Gone(s, k, t)
    requires j < |s.socks| && j != s.uses[k].slot && s.socks[j].conn.To? && s.socks[j].conn.id in t.closed
    ensures s.socks[j].conn.id in s.closed
  {
    var i, c := s.uses[k].slot, s.socks[j].conn.id;
    if c !in s.closed {
      assert s.socks[i].conn == To(c);
      assert ConnOk(s, c);
      if i < j { AttachedTwo(s.socks, i, j); } else { AttachedTwo(s.socks, j, i); }
    }
  }

  lemma {:induction false} MakeKeeps(s: State, i: nat, c: nat)
    requires Ok(s) && Enabled(s, Make(i, c)) && Unused(s.socks[i])
    ensures Ok(Next(s, Make(i, c)))
  {
    var t := Next(s, Make(i, c));
    assert SlotOk(s, i);
    assert ConnOk(s, c);
    forall j {:trigger SlotOk(t, j)} | 0 <= j < |t.socks| ensures SlotOk(t, j) {
      assert SlotOk(s, j);
      UsersConcat(s.uses, [Use(i, To(c))], j);
      UsersOne(Use(i, To(c)), j);
    }
    forall d {:trigger ConnOk(t, d)} ensures ConnOk(t, d) {
      assert ConnOk(s, d);
      AttachedSet(s.socks, i, t.socks[i], d);
    }
    forall k {:trigger t.uses[k]} | 0 <= k < |t.uses| ensures UseOk(t, t.uses[k]) {
      if k < |s.uses| {
        assert UseOk(s, s.uses[k]);
        UsersSome(s.uses, k);
      }
    }
  }

  lemma {:induction false} DeleteKeeps(s: State, c: nat)
    requires Ok(s) && Enabled(s, Delete(c))
    ensures Ok(Next(s, Delete(c)))
  {
    var t := Next(s, Delete(c));
    forall d {:trigger ConnOk(t, d)} ensures ConnOk(t, d) {
      assert ConnOk(s, d);
    }
    forall j {:trigger SlotOk(t, j)} | 0 <= j < |t.socks| ensures SlotOk(t, j) {
      assert SlotOk(s, j);
    }
    forall k {:trigger t.uses[k]} | 0 <= k < |t.uses| ensures UseOk(t, t.uses[k]) {
      assert UseOk(s, s.uses[k]);
    }
  }

  lemma {:induction false} StepKeeps(s: State, e: Event)
    requires Ok(s) && Enabled(s, e)
    ensures Ok(Next(s, e))
  {
    match e
    case Acquire(i) => AcquireKeeps(s, i);
    case Read(k) => ReadKeeps(s, k);
    case Leave(k) =>
      assert SlotOk(s, s.uses[k].slot);
      GoneKeeps(s, k, Next(s, e));
    case Close(k, tcp) =>
      assert SlotOk(s, s.uses[k].slot);
      assert UseOk(s, s.uses[k]);
      GoneKeeps(s, k, Next(s, e));
    case Make(i, c) => if Unused(s.socks[i]) { MakeKeeps(s, i, c); }
    case Delete(c) => DeleteKeeps(s, c);
  }

  // ---------- runs ----------

  function Start(n: nat): State {
    State(seq(n, _ => Sock(NoConn, 0, NotPending)), [], multiset{}, multiset{}, {}, {})
  }

  /** states is a run of the steps events, in any interleaving, from a table of n free sockets. */
  ghost predicate Run(n: nat, states: seq<State>, events: seq<Event>) {
    && |states| == |events| + 1 && states[0] == Start(n)
    && forall k {:trigger events[k]} | 0 <= k < |events| ::
       Enabled(states[k], events[k]) && states[k + 1] == Next(states[k], events[k])
  }

  lemma {:induction false} StartOk(n: nat)
    ensures Ok(Start(n))
  {
    forall c {:trigger ConnOk(Start(n), c)} ensures ConnOk(Start(n), c) {
      NoneAttached(Start(n).socks, c);
    }
  }

  lemma {:induction false} NoneAttached(socks: seq<Sock>, c: nat)
    requires forall i | 0 <= i < |socks| :: socks[i].conn == NoConn
    ensures Attached(socks, c) == 0
  {
    if socks != [] {
      NoneAttached(socks[1..], c);
    }
  }

  lemma {:induction false} RunOk(n: nat, states: seq<State>, events: seq<Event>, k: nat)
    requires Run(n, states, events) && k <= |events|
    ensures Ok(states[k])
  {
    if k == 0 {
      StartOk(n);
    } else {
      RunOk(n, states, events, k - 1);
      assert Enabled(states[k - 1], events[k - 1]);
      StepKeeps(states[k - 1], events[k - 1]);
    }
  }

  /** In every state of every run: while a thread uses a socket, the netconn it has read is still the
    * socket's and is neither deleted nor about to be, and the slot is not up for allocation. */
  lemma {:induction false} UseProtects(n: nat, states: seq<State>, events: seq<Event>, k: nat, u: nat)
    requires Run(n, states, events) && k <= |events| && u < |states[k].uses|
    ensures var s, use := states[k], states[k].uses[u];
            && use.slot < |s.socks| && s.socks[use.slot].used > 0 && !Unused(s.socks[use.slot])
            && (use.conn.To? ==>
               s.socks[use.slot].conn == use.conn && s.doomed[use.conn.id] == 0
               && s.deleted[use.conn.id] == 0)
  {
    RunOk(n, states, events, k);
    var s, use := states[k], states[k].uses[u];
    assert UseOk(s, use) && SlotOk(s, use.slot);
    UsersSome(s.uses, u);
    if use.conn.To? {
      assert ConnOk(s, use.conn.id);
      AttachedSome(s.socks, use.slot);
    }
  }

  /** Once a free is pending nobody starts to use the socket, so that its uses only ever get fewer. */
  lemma {:induction false} NoNewUse(s: State, e: Event, i: nat)
    requires Ok(s) && Enabled(s, e) && i < |s.socks| && s.socks[i].pending.FreePending? && s.socks[i].conn.To?
    ensures Users(Next(s, e).uses, i) <= Users(s.uses, i)
    ensures Next(s, e).socks[i].pending.FreePending?
  {
    assert SlotOk(s, i);
    match e
    case Acquire(j) =>
      UsersConcat(s.uses, [Use(j, NoConn)], i);
      UsersOne(Use(j, NoConn), i);
    case Read(k) => UsersRead(s.uses, k, s.socks[s.uses[k].slot].conn, i);
    case Leave(k) => UsersWithout(s.uses, k, i);
    case Close(k, tcp) => UsersWithout(s.uses, k, i);
    case Make(j, c) =>
      UsersConcat(s.uses, [Use(j, To(c))], i);
      UsersOne(Use(j, To(c)), i);
    case Delete(c) =>
  }

  /** In every run: a thread that asks for a socket with a netconn is given a use of it if and only if nobody has
    * closed that netconn. */
  lemma {:induction false} AcquireIff(n: nat, states: seq<State>, events: seq<Event>, k: nat, i: nat)
    requires Run(n, states, events) && k < |events| && events[k] == Acquire(i)
    requires i < |states[k].socks| && states[k].socks[i].conn.To?
    ensures var s, t := states[k], states[k + 1];
            && i < |t.socks|
            && if s.socks[i].conn.id in s.closed then t == s
               else t.uses == s.uses + [Use(i, NoConn)] && t.socks[i].used == s.socks[i].used + 1
  {
    RunOk(n, states, events, k);
    assert Enabled(states[k], events[k]) && states[k + 1] == Next(states[k], events[k]);
    assert SlotOk(states[k], i);
  }

  /** Whether some thread uses the socket that leads to a netconn. */
  ghost predicate InUse(s: State, c: nat) {
    exists i :: 0 <= i < |s.socks| && s.socks[i].conn == To(c) && Users(s.uses, i) > 0
  }

  /** In every state of every run a netconn has been released by its socket exactly if it has been closed
    * and nobody uses its socket; it is released once and deleted at most once. */
  lemma {:induction false} ReleasedOnce(n: nat, states: seq<State>, events: seq<Event>, k: nat, c: nat)
    requires Run(n, states, events) && k <= |events|
    ensures var s := states[k];
            && s.doomed[c] + s.deleted[c] == if c in s.closed && !InUse(s, c) then 1 else 0
  {
    RunOk(n, states, events, k);
    var s := states[k];
    assert ConnOk(s, c);
    if InUse(s, c) {
      var i :| 0 <= i < |s.socks| && s.socks[i].conn == To(c) && Users(s.uses, i) > 0;
      AttachedSome(s.socks, i);
    } else if Attached(s.socks, c) > 0 {
      var i := AttachedAt(s.socks, c);
      assert SlotOk(s, i);
    }
  }

  /** Step m closed slot i. */
  ghost predicate Closes(states: seq<State>, events: seq<Event>, m: nat, i: nat) {
    && m < |events| && m < |states| && events[m].Close?
    && events[m].k < |states[m].uses| && states[m].uses[events[m].k].slot == i
  }

  /** In every run: as long as the free of a socket is pending, the protocol that is noted for it is the one of the
    * last close of that socket, and it was a close of the netconn the socket still has. */
  lemma {:induction false} FlagOfLastClose(n: nat, states: seq<State>, events: seq<Event>, k: nat, i: nat)
    returns (m: nat)
    requires Run(n, states, events) && k <= |events| && i < |states[k].socks|
    requires states[k].socks[i].pending.FreePending? && states[k].socks[i].conn.To?
    ensures m < k && Closes(states, events, m, i)
    ensures forall j: nat {:trigger Closes(states, events, j, i)} | m < j < k :: !Closes(states, events, j, i)
    ensures states[k].socks[i].pending.tcp == events[m].tcp
    ensures states[m].uses[events[m].k].conn == states[k].socks[i].conn
    decreases k
  {
    assert k > 0;
    RunOk(n, states, events, k - 1);
    assert Enabled(states[k - 1], events[k - 1]) && states[k] == Next(states[k - 1], events[k - 1]);
    FlagStep(states[k - 1], events[k - 1], i);
    if Closes(states, events, k - 1, i) {
      m := k - 1;
    } else {
      m := FlagOfLastClose(n, states, events, k - 1, i);
    }
  }

  lemma {:induction false} FlagStep(s: State, e: Event, i: nat)
    requires Ok(s) && Enabled(s, e) && i < |Next(s, e).socks|
    requires Next(s, e).socks[i].pending.FreePending? && Next(s, e).socks[i].conn.To?
    ensures i < |s.socks| && Next(s, e).socks[i].conn == s.socks[i].conn
    ensures if e.Close? && s.uses[e.k].slot == i then
              Next(s, e).socks[i].pending.tcp == e.tcp && s.uses[e.k].conn == s.socks[i].conn
            else Next(s, e).socks[i].pending == s.socks[i].pending
  {
    if e.Close? { assert UseOk(s, s.uses[e.k]); }
  }

  lemma {:induction false} AttachedAt(socks: seq<Sock>, c: nat) returns (i: nat)
    requires Attached(socks, c) > 0
    ensures i < |socks| && socks[i].conn == To(c)
  {
    if socks[0].conn == To(c) {
      i := 0;
    } else {
      i := AttachedAt(socks[1..], c);
      i := i + 1;
    }
  }

  // ---------- an assertion that does not hold ----------

  /** sock_inc_used_locked asserts that a socket whose free is pending is in use. In every state of every
    * run that holds exactly if the socket still has its netconn: the flag outlives the free. */
  lemma {:induction false} LockedAssertHolds(n: nat, states: seq<State>, events: seq<Event>, k: nat, i: nat)
    requires Run(n, states, events) && k <= |events| && i < |states[k].socks|
    ensures var s := states[k].socks[i];
            s.pending.FreePending? ==> (s.used != 0 <==> s.conn != NoConn)
  {
    RunOk(n, states, events, k);
    assert SlotOk(states[k], i);
  }

  /** The assertion fails for the descriptor of a socket that was closed while another thread used it. */
  lemma {:induction false} LockedAssertFails() returns (states: seq<State>, events: seq<Event>)
    ensures Run(1, states, events)
    ensures var s := states[|events|].socks; |s| == 1 && s[0].pending.FreePending? && s[0].used == 0
  {
    states, events := [Start(1)], [];
    states, events := RunOn(states, events, Make(0, 5), One(Sock(To(5), 1, NotPending), [Use(0, To(5))], {}));
    states, events := RunOn(states, events, Acquire(0),
      One(Sock(To(5), 2, NotPending), [Use(0, To(5)), Use(0, NoConn)], {}));
    assert Without([Use(0, To(5)), Use(0, NoConn)], 0) == [Use(0, NoConn)];
    states, events := RunOn(states, events, Close(0, true),
      One(Sock(To(5), 1, FreePending(true)), [Use(0, NoConn)], {5}));
    assert Without([Use(0, NoConn)], 0) == [];
    var last := One(Sock(NoConn, 0, FreePending(true)), [], {5}).(doomed := multiset{5});
    states, events := RunOn(states, events, Leave(0), last);
  }

  /** One socket, for netconn 5. */
  function One(sock: Sock, uses: seq<Use>, closed: set<nat>): State {
    State([sock], uses, multiset{}, multiset{}, closed, {5})
  }

  lemma {:induction false} RunOn(states: seq<State>, events: seq<Event>, e: Event, t: State)
    returns (longer: seq<State>, more: seq<Event>)
    requires Run(1, states, events) && Enabled(states[|events|], e) && t == Next(states[|events|], e)
    ensures Run(1, longer, more) && longer[|more|] == t
  {
    longer, more := states + [t], events + [e];
    forall k {:trigger more[k]} | 0 <= k < |more|
        ensures Enabled(longer[k], more[k]) && longer[k + 1] == Next(longer[k], more[k]) {
      if k < |events| {
        assert events[k] == more[k] && longer[k] == states[k] && longer[k + 1] == states[k + 1];
      }
    }
  }
}
