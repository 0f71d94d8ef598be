/** Receiving from a TCP socket: lwip_recv_tcp of api/sockets.c over netconn_recv_data_tcp of api/api_lib.c. */
module RecvStream {
  import opened Words

  datatype Err = OK | TIMEOUT | WOULDBLOCK | CONN | CLSD | RST | ABRT

  /** What the stack posts to the receive mailbox: a pbuf, by its bytes, or the end of the stream, which is
    * a FIN or the error that has ended the connection. */
  datatype Item = Data(bytes: seq<byte>) | End(err: Err)

  datatype Buf = Null | Got(bytes: seq<byte>)

  /** The bytes that wait in a mailbox. */
  function Bytes(mbox: seq<Item>): seq<byte> {
    if mbox == [] then [] else (if mbox[0].Data? then mbox[0].bytes else []) + Bytes(mbox[1..])
  }

  /** Pbufs are not empty, and no data comes behind the end. */
  predicate InOrder(mbox: seq<Item>) {
    mbox != [] ==>
      && InOrder(mbox[1..])
      && (if mbox[0].Data? then 0 < |mbox[0].bytes| <= 0xFFFF else Bytes(mbox[1..]) == [] && mbox[0].err != OK)
  }

  predicate HasEnd(mbox: seq<Item>) {
    exists i :: 0 <= i < |mbox| && mbox[i].End?
  }

  lemma {:induction false} BytesConcat(a: seq<Item>, b: seq<Item>)
    ensures Bytes(a + b) == Bytes(a) + Bytes(b)
  {
    if a == [] {
      assert a + b == b;
    } else {
      assert (a + b)[1..] == a[1..] + b;
      BytesConcat(a[1..], b);
    }
  }

  lemma {:induction false} Posted(mbox: seq<Item>, x: Item)
    requires InOrder(mbox) && (if x.Data? then 0 < |x.bytes| <= 0xFFFF && !HasEnd(mbox) else x.err != OK)
    ensures InOrder(mbox + [x]) && Bytes(mbox + [x]) == Bytes(mbox) + if x.Data? then x.bytes else []
    ensures HasEnd(mbox + [x]) <==> HasEnd(mbox) || x.End?
  {
    assert Bytes([x]) == if x.Data? then x.bytes else [] by {
      assert [x][1..] == [];
    }
    BytesConcat(mbox, [x]);
    if mbox != [] {
      assert (mbox + [x])[1..] == mbox[1..] + [x];
      Posted(mbox[1..], x);
    }
    assert (mbox + [x])[|mbox|] == x;
    if HasEnd(mbox) {
      var i :| 0 <= i < |mbox| && mbox[i].End?;
      assert (mbox + [x])[i].End?;
    }
  }

  /** No byte is lost, doubled or out of order, and behind the end nothing is left to come. */
  ghost predicate Stream(taken: seq<byte>, hand: seq<byte>, mbox: seq<Item>, arrived: seq<byte>, ended: bool) {
    && taken + (hand + Bytes(mbox)) == arrived && |hand| <= 0xFFFF
    && InOrder(mbox) && (HasEnd(mbox) ==> ended)
  }

  lemma {:induction false} StreamPosts(taken: seq<byte>, hand: seq<byte>, mbox: seq<Item>, arrived: seq<byte>,
                                       ended: bool, x: Item)
    requires Stream(taken, hand, mbox, arrived, ended)
    requires if x.Data? then 0 < |x.bytes| <= 0xFFFF && !ended else x.err != OK
    ensures x.Data? ==> Stream(taken, hand, mbox + [x], arrived + x.bytes, ended)
    ensures x.End? ==> Stream(taken, hand, mbox + [x], arrived, true)
  {
    Posted(mbox, x);
    assert x.Data? ==> taken + (hand + (Bytes(mbox) + x.bytes)) == taken + (hand + Bytes(mbox)) + x.bytes;
  }

  lemma {:induction false} StreamFetches(taken: seq<byte>, mbox: seq<Item>, arrived: seq<byte>, ended: bool)
    requires Stream(taken, [], mbox, arrived, ended) && mbox != []
    ensures mbox[0].Data? ==> Stream(taken, mbox[0].bytes, mbox[1..], arrived, ended)
    ensures mbox[0].End? ==> Stream(taken, [], mbox[1..], arrived, ended) && ended && taken == arrived
  {
    Fetched(mbox);
  }

  lemma {:induction false} StreamTakes(taken: seq<byte>, p: seq<byte>, n: nat, mbox: seq<Item>, arrived: seq<byte>,
                                       ended: bool)
    requires Stream(taken, p, mbox, arrived, ended) && n <= |p|
    ensures Stream(taken + p[..n], p[n..], mbox, arrived, ended)
    ensures |taken| + n <= |arrived| && p[..n] == arrived[|taken|..|taken| + n]
  {
    assert p == p[..n] + p[n..];
    assert taken + p[..n] + (p[n..] + Bytes(mbox)) == taken + (p + Bytes(mbox));
  }

  lemma {:induction false} StreamPrefix(taken: seq<byte>, hand: seq<byte>, mbox: seq<Item>, arrived: seq<byte>,
                                        ended: bool)
    requires Stream(taken, hand, mbox, arrived, ended)
    ensures taken <= arrived
  {
  }

  lemma {:induction false} StreamFront(taken: seq<byte>, mbox: seq<Item>, arrived: seq<byte>, ended: bool)
    requires Stream(taken, [], mbox, arrived, ended) && taken != arrived
    ensures mbox != [] && mbox[0].Data?
  {
    StreamEmpty(taken, [], mbox, arrived, ended);
  }

  lemma {:induction false} StreamEmpty(taken: seq<byte>, hand: seq<byte>, mbox: seq<Item>, arrived: seq<byte>,
                                       ended: bool)
    requires Stream(taken, hand, mbox, arrived, ended)
    ensures taken == arrived <==> hand == [] && Bytes(mbox) == []
  {
    assert |arrived| == |taken| + |hand| + |Bytes(mbox)|;
  }

  class TcpSocket {
    /** sock->lastdata, by its bytes; none if it is NULL. */
    var lastdata: seq<byte>
    /** The receive mailbox of the netconn, its flags, its pending error and whether it still has a pcb. */
    var mbox: seq<Item>
    var waitable: bool
    var finPending: bool
    var nonblocking: bool
    var mboxClosed: bool
    var pendingErr: Err
    var pcb: bool
    /** Whether the peer has ended the stream: the stack passes no data on after that. */
    var ended: bool
    /** All bytes that have arrived, those handed to the application, and the sum of what
      * netconn_tcp_recvd has been told. */
    ghost var arrived: seq<byte>
    ghost var taken: seq<byte>
    ghost var window: nat
    /** How often a call has gone to sleep on the empty mailbox. */
    ghost var waits: nat

    constructor (nonblocking: bool)
      ensures Valid() && arrived == [] && !ended
    {
      lastdata, mbox, waitable, finPending := [], [], true, false;
      this.nonblocking, mboxClosed, pendingErr, pcb := nonblocking, false, OK, true;
      arrived, taken, window, ended, waits := [], [], 0, false, 0;
    }

    /** hand is what has been fetched and not yet taken: lastdata, or what a call under way has got. */
    ghost predicate Flows(hand: seq<byte>)
      reads this
    {
      && Stream(taken, hand, mbox, arrived, ended) && (pendingErr != OK ==> ended && !pcb)
      && (finPending || !waitable ==> ended && taken == arrived)
    }

    ghost predicate Valid()
      reads this
    {
      Flows(lastdata) && window == |taken|
    }

    /** Any number of pbufs arrive, and possibly the end, as recv_tcp and err_tcp post them. */
    method Network()
      requires Flows(lastdata)
      modifies this`mbox, this`pendingErr, this`pcb, this`mboxClosed, this`arrived, this`ended
      ensures Flows(lastdata) && old(arrived) <= arrived && (old(ended) ==> ended && arrived == old(arrived))
      ensures old(mbox) <= mbox
    {
      var n: nat, i := *, 0;
      while i < n
        invariant Flows(lastdata) && old(arrived) <= arrived && (old(ended) ==> ended && arrived == old(arrived))
        invariant old(mbox) <= mbox
      {
        Arrival();
        i := i + 1;
      }
    }

    method Arrival()
      requires Flows(lastdata)
      modifies this`mbox, this`pendingErr, this`pcb, this`mboxClosed, this`arrived, this`ended
      ensures Flows(lastdata) && old(arrived) <= arrived && (old(ended) ==> ended && arrived == old(arrived))
      ensures old(mbox) <= mbox
    {
      var bytes: seq<byte>, err: Err, lost: bool := *, *, *;
      if 0 < |bytes| <= 0xFFFF && waitable && !ended {
        StreamPosts(taken, lastdata, mbox, arrived, ended, Data(bytes));
        mbox := mbox + [Data(bytes)];
        arrived := arrived + bytes;
      } else if err != OK && waitable {
        StreamPosts(taken, lastdata, mbox, arrived, ended, End(err));
        mbox := mbox + [End(err)];
        if lost {
          pendingErr, pcb := err, false;
        }
        ended := true;
      } else {
        mboxClosed := *;
      }
    }

    /** netconn_err. */
    method NetconnErr() returns (err: Err)
      modifies this`pendingErr
      ensures err == old(pendingErr) && pendingErr == OK
    {
      err := pendingErr;
      pendingErr := OK;
    }

    /** A call has gone to sleep at most once, and not at all if it need not wait; one that must not give up, and has
      * got nothing, has slept, unless the mailbox is closed or the stream has ended. */
    ghost predicate Slept(before: nat, needNot: bool, got: bool)
      reads this
    {
      && before <= waits <= before + 1 && (needNot ==> waits == before)
      && (waits == before && !got && !needNot ==> mboxClosed || ended)
    }

    /** Fetches from the mailbox, or tries to; data may arrive before it is looked at and while the call waits. */
    method Await(dontBlock: bool) returns (err: Err)
      requires Flows([]) && lastdata == [] && waitable
      modifies this`mbox, this`pendingErr, this`pcb, this`mboxClosed, this`arrived, this`ended, this`waits
      ensures Flows([]) && old(arrived) <= arrived && (old(ended) ==> ended && arrived == old(arrived))
      ensures err == OK <==> mbox != []
      ensures err == CLSD ==> ended && taken == arrived && !pcb
      ensures old(mbox) <= mbox
      ensures Slept(old(waits), nonblocking || dontBlock || old(mbox) != [], err == OK)
    {
      Network();
      if nonblocking || dontBlock || mboxClosed || pendingErr != OK {
        if mbox == [] {
          StreamEmpty(taken, [], mbox, arrived, ended);
          err := NetconnErr();
          if err != OK {
            return;
          }
          return if mboxClosed then CONN else WOULDBLOCK;
        }
      } else {
        if mbox == [] {
          waits := waits + 1;
        }
        Network();
        if mbox == [] {
          return TIMEOUT;
        }
      }
      err := OK;
    }

    /** netconn_recv_data. */
    method RecvData(dontBlock: bool) returns (err: Err, buf: Buf)
      requires Flows([]) && lastdata == []
      modifies this`mbox, this`pendingErr, this`pcb, this`mboxClosed, this`arrived, this`ended, this`waits
      ensures Flows(if buf.Got? then buf.bytes else []) && old(arrived) <= arrived
          && (old(ended) ==> ended && arrived == old(arrived))
      ensures buf.Got? ==> err == OK && 0 < |buf.bytes| <= 0xFFFF && waitable
      ensures (err == OK && buf.Null?) || err == CLSD ==> ended && taken == arrived
      ensures err == CLSD ==> !pcb
      ensures old(taken != arrived) ==> buf.Got?
      ensures Slept(old(waits), nonblocking || dontBlock || old(taken != arrived), buf.Got?)
    {
      buf := Null;
      if !waitable {
        err := NetconnErr();
        return if err != OK then err else CONN, Null;
      }
      if taken != arrived { StreamFront(taken, mbox, arrived, ended); }
      err := Await(dontBlock);
      if err == OK {
        err, buf := Open();
      }
    }

    /** Takes the front of the mailbox; an end with ERR_CLSD is a FIN and shows as no buffer. */
    method Open() returns (err: Err, buf: Buf)
      requires Flows([]) && mbox != []
      modifies this`mbox
      ensures Flows(if buf.Got? then buf.bytes else [])
      ensures if old(mbox[0]).Data? then err == OK && buf == Got(old(mbox[0]).bytes) && 0 < |buf.bytes| <= 0xFFFF
              else buf == Null && ended && taken == arrived && err != CLSD
    {
      StreamFetches(taken, mbox, arrived, ended);
      var item := mbox[0];
      mbox := mbox[1..];
      match item
      case End(e) =>
        return if e == CLSD then OK else e, Null;
      case Data(bytes) =>
        return OK, Got(bytes);
    }

    /** netconn_recv_data_tcp, without the automatic window update. A FIN that the caller cannot take now is
      * remembered; taking it shuts the receive side. */
    method RecvDataTcp(dontBlock: bool, noFin: bool) returns (err: Err, buf: Buf)
      requires Flows([]) && lastdata == []
      modifies this`mbox, this`waitable, this`finPending, this`pendingErr, this`pcb, this`mboxClosed, this`arrived,
          this`ended, this`waits
      ensures Flows(if buf.Got? then buf.bytes else []) && old(arrived) <= arrived
          && (old(ended) ==> ended && arrived == old(arrived))
      ensures buf.Got? <==> err == OK
      ensures buf.Got? ==> 0 < |buf.bytes| <= 0xFFFF
      ensures err == CLSD ==> ended && taken == arrived
      ensures EndTaken(old(waitable), err == CLSD) && (!old(waitable) ==> err == CONN)
      ensures old(waitable && finPending && pcb) ==> err == CLSD && pcb
      ensures noFin && !old(finPending) ==> waitable == old(waitable)
      ensures buf.Got? ==> !finPending && waitable
      ensures old(taken != arrived) ==> buf.Got?
      ensures Slept(old(waits), nonblocking || dontBlock || old(taken != arrived), buf.Got?)
    {
      if !waitable {
        return CONN, Null;
      }
      if finPending {
        finPending := false;
        err := HandleFin();
        return err, Null;
      }
      err, buf := RecvData(dontBlock);
      if err != OK {
        return;
      }
      if buf.Null? {
        if noFin {
          finPending := true;
          return WOULDBLOCK, Null;
        }
        err := HandleFin();
      }
    }

    /** The receive side has been shut exactly if the end was reported by ERR_CLSD while there was a pcb. */
    ghost predicate EndTaken(before: bool, clsd: bool)
      reads this
    {
      waitable == (before && !(clsd && pcb))
    }

    /** The label handle_fin. */
    method HandleFin() returns (err: Err)
      requires Flows([]) && ended && taken == arrived
      modifies this`mbox, this`waitable, this`pendingErr
      ensures Flows([]) && err != OK
      ensures if pcb then err == CLSD && !waitable else waitable == old(waitable)
    {
      StreamEmpty(taken, [], mbox, arrived, ended);
      if !pcb {
        err := NetconnErr();
        if err != OK {
          return;
        }
        return RST;
      }
      mbox, waitable := [], false;
      return CLSD;
    }

    /** Makes sure there is a pbuf in lastdata, from the netconn if need be. */
    method Refill(dontBlock: bool, noFin: bool) returns (err: Err)
      requires Flows(lastdata)
      modifies this`lastdata, this`mbox, this`waitable, this`finPending, this`pendingErr, this`pcb, this`mboxClosed,
          this`arrived, this`ended, this`waits
      ensures Flows(lastdata) && old(arrived) <= arrived && (old(ended) ==> ended && arrived == old(arrived))
          && (err == OK <==> lastdata != [])
      ensures old(taken != arrived) ==> err == OK
      ensures Slept(old(waits), nonblocking || dontBlock || old(taken != arrived), err == OK)
      ensures err == OK ==> !finPending && waitable
      ensures err == CLSD ==> ended && taken == arrived
      ensures EndTaken(old(waitable), err == CLSD) && (!old(waitable) ==> err == CONN)
      ensures old(waitable && finPending && pcb) ==> err == CLSD && pcb
      ensures noFin && !old(finPending) ==> waitable == old(waitable)
    {
      if lastdata != [] {
        StreamEmpty(taken, lastdata, mbox, arrived, ended);
        return OK;
      }
      var buf;
      err, buf := RecvDataTcp(dontBlock, noFin);
      if err == OK {
        lastdata := buf.bytes;
      }
    }

    /** Copies from lastdata behind the n bytes that mem has, and unless peeking drops what has been copied. */
    method Deliver(mem: array<byte>, n: nat, limit: nat, peek: bool, ghost mem0: seq<byte>, ghost taken0: seq<byte>)
        returns (recvd: nat)
      requires Flows(lastdata) && lastdata != [] && n <= limit <= mem.Length
      requires Copied(mem0, mem[..], n, taken0, taken) && (peek ==> n == 0)
      modifies this`lastdata, this`taken, mem
      ensures recvd == Min(limit, n + |old(lastdata)|) && Flows(lastdata)
      ensures if peek then taken == old(taken) && lastdata == old(lastdata)
          && Peeked(mem0, mem[..], recvd, taken, arrived)
              else Copied(mem0, mem[..], recvd, taken0, taken) && lastdata == old(lastdata)[recvd - n..]
    {
      var p := lastdata;
      var copylen := if limit - n > |p| then |p| else limit - n;
      ghost var chunk, before, t := p[..copylen], mem[..], taken;
      StreamTakes(taken, p, copylen, mbox, arrived, ended);
      CopyOut(mem, n, p, copylen);
      CopiedOn(mem0, before, mem[..], n, taken0, taken, chunk);
      recvd := n + copylen;
      if peek {
        assert before[..0] == [];
      } else {
        StreamEmpty(taken, p, mbox, arrived, ended);
        taken := taken + chunk;
        lastdata := p[copylen..];
      }
    }

    /** One round of its loop: the next pbuf is fetched if need be, and copied as far as there is room. */
    method Round(mem: array<byte>, n: nat, limit: nat, peek: bool, dontBlock: bool, noFin: bool, ghost mem0: seq<byte>,
                 ghost taken0: seq<byte>)
        returns (recvd: nat, err: Err)
      requires Flows(lastdata) && n <= limit <= mem.Length
      requires Copied(mem0, mem[..], n, taken0, taken) && (peek ==> n == 0)
      modifies this`lastdata, this`taken, this`mbox, this`waitable, this`finPending, this`pendingErr, this`pcb,
          this`mboxClosed, this`arrived, this`ended, this`waits, mem
      ensures Flows(lastdata) && old(arrived) <= arrived && (old(ended) ==> ended && arrived == old(arrived))
      ensures err != OK ==> recvd == n && taken == old(taken) && Copied(mem0, mem[..], n, taken0, taken)
      ensures err == OK ==> n <= recvd <= limit && (n < limit ==> n < recvd) && !finPending && waitable
      ensures err == OK ==> if peek then taken == old(taken) && Peeked(mem0, mem[..], recvd, taken, arrived)
                            else Copied(mem0, mem[..], recvd, taken0, taken)
      ensures old(taken != arrived) ==> err == OK
      ensures err == CLSD ==> ended && taken == arrived
      ensures EndTaken(old(waitable), err == CLSD) && (!old(waitable) ==> err == CONN)
      ensures old(waitable && finPending && pcb) ==> err == CLSD && pcb
      ensures noFin && !old(finPending) ==> waitable == old(waitable)
      ensures Slept(old(waits), nonblocking || dontBlock || old(taken != arrived), err == OK)
    {
      recvd := n;
      err := Refill(dontBlock, noFin);
      if err == OK {
        recvd := Deliver(mem, n, limit, peek, mem0, taken0);
      }
    }

    /** The loop of lwip_recv_tcp; err is the error that has ended it. */
    method Receive(mem: array<byte>, limit: nat, peek: bool, dontWait: bool) returns (recvd: nat, err: Err)
      requires Flows(lastdata) && limit <= mem.Length
      modifies this`lastdata, this`taken, this`mbox, this`waitable, this`finPending, this`pendingErr, this`pcb,
          this`mboxClosed, this`arrived, this`ended, this`waits, mem
      ensures Flows(lastdata) && old(arrived) <= arrived && (old(ended) ==> ended && arrived == old(arrived))
          && recvd <= limit
      ensures if peek then taken == old(taken) && Peeked(old(mem[..]), mem[..], recvd, taken, arrived)
              else Copied(old(mem[..]), mem[..], recvd, old(taken), taken)
      ensures recvd == 0 && limit > 0 ==> err != OK && (err == CLSD ==> ended && taken == arrived)
      ensures limit == 0 && err == CLSD ==> ended && taken == arrived
      ensures recvd > 0 ==> waitable
      ensures EndTaken(old(waitable), recvd == 0 && err == CLSD) && (!old(waitable) ==> recvd == 0 && err == CONN)
      ensures old(waitable && finPending && pcb) ==> recvd == 0 && err == CLSD && pcb
      ensures old(taken != arrived) && limit > 0 ==> recvd > 0
      ensures !peek ==> recvd >= Min(limit, |old(arrived)| - |old(taken)|)
      ensures Slept(old(waits), nonblocking || dontWait || old(taken != arrived), recvd > 0 || limit == 0)
    {
      var noFin, dontBlock := false, dontWait;
      recvd := 0;
      while true
        invariant Flows(lastdata) && old(arrived) <= arrived && (old(ended) ==> ended && arrived == old(arrived))
            && recvd <= limit
        invariant recvd > 0 ==> recvd < limit && !peek && waitable && !finPending && noFin && old(waitable)
        invariant recvd > 0 ==> !old(finPending)
        invariant recvd == 0 ==> waitable == old(waitable) && finPending == old(finPending) && pcb == old(pcb)
        invariant Copied(old(mem[..]), mem[..], recvd, old(taken), taken)
        invariant recvd == 0 && old(taken != arrived) ==> taken != arrived
        invariant dontBlock <==> dontWait || recvd > 0
        invariant recvd == 0 ==> waits == old(waits)
        invariant Slept(old(waits), nonblocking || dontWait || old(taken != arrived), true)
        decreases limit - recvd
      {
        recvd, err := Round(mem, recvd, limit, peek, dontBlock, noFin, old(mem[..]), old(taken));
        if err != OK {
          return;
        }
        dontBlock, noFin := true, true;
        if recvd == limit || peek {
          return;
        }
      }
    }

    /** lwip_recv_tcp into mem. The bytes returned are the next ones of the stream, and without peeking as many
      * as have arrived and fit; a peek leaves them in the stream. 0 tells that the stream has ended with all
      * its bytes taken; a call that returns bytes never uses up the end. One that reports it does, even if it
      * peeks: it shuts the receive side, and every later call returns -1. */
    method RecvTcp(mem: array<byte>, len: nat, peek: bool, dontWait: bool) returns (ret: int)
      requires Valid() && len <= mem.Length
      modifies this, mem
      ensures Valid() && old(arrived) <= arrived && (old(ended) ==> ended && arrived == old(arrived))
          && -1 <= ret <= len
      ensures mem[Max0(ret)..] == old(mem[..])[Max0(ret)..]
      ensures ret > 0 && !peek ==> taken == old(taken) + mem[..ret]
      ensures ret > 0 && peek ==> |taken| + ret <= |arrived| && mem[..ret] == arrived[|taken|..|taken| + ret]
      ensures ret <= 0 || peek ==> taken == old(taken) && window == old(window)
      ensures ret == 0 && len > 0 ==> ended && taken == arrived
      ensures ret > 0 ==> waitable
      ensures len > 0 ==> EndTaken(old(waitable), ret == 0)
      ensures !old(waitable) ==> ret == -1 && !waitable
      ensures old(waitable && finPending && pcb) ==> ret == 0 && !waitable
      ensures old(taken != arrived) && len > 0 ==> ret > 0
      ensures !peek ==> ret >= Min(Limit(len), |old(arrived)| - |old(taken)|) || ret == -1
      ensures ret == -1 && !peek ==> Limit(len) == 0 || old(taken == arrived)
      ensures Slept(old(waits), nonblocking || dontWait || old(taken != arrived), ret > 0 || len == 0)
    {
      var recvd, err := Receive(mem, Limit(len), peek, dontWait);
      if recvd == 0 && err != OK {
        return if err == CLSD then 0 else -1;
      }
      if recvd > 0 && !peek {
        window := window + recvd;
      }
      ret := recvd;
    }

    /** The end of the stream is pending, and a peek comes before the read: the peek reports it, and the read
      * fails. Without the peek the read reports it. */
    method PeekThenRead(mem: array<byte>, peekFirst: bool) returns (peeked: int, read: int)
      requires Valid() && waitable && finPending && pcb && mem.Length > 0
      modifies this, mem
      ensures if peekFirst then peeked == 0 && read == -1 else read == 0
    {
      peeked := -1;
      if peekFirst {
        peeked := RecvTcp(mem, mem.Length, true, false);
      }
      read := RecvTcp(mem, mem.Length, false, false);
    }

    /** Any sequence of calls, with data arriving before and during each, and the result of each of them: the
      * bytes that the calls without peeking return are a prefix of what has arrived, the window has been opened
      * by as many, a peek returns the bytes behind that prefix, and once a call has reported the end they are
      * all that ever arrives. What had arrived before is returned as far as the calls have room for it. */
    method Session(calls: seq<Call>) returns (results: seq<Result>)
      requires Valid() && taken == []
      modifies this
      ensures Valid() && |results| == |calls|
      ensures Read(calls, results) <= arrived && window == |Read(calls, results)|
      ensures Told(calls, results, arrived, ended, |old(arrived)|)
    {
      results := [];
      for i := 0 to |calls|
        invariant Valid() && |results| == i && taken == Read(calls[..i], results)
        invariant old(arrived) <= arrived && Told(calls[..i], results, arrived, ended, |old(arrived)|)
      {
        ghost var a0, e0 := arrived, ended;
        StreamPrefix(taken, lastdata, mbox, arrived, ended);
        var r := Turn(calls[i]);
        ToldGoesOn(calls, results, i, r, a0, e0, arrived, ended, |old(arrived)|);
        results := results + [r];
      }
      assert calls[..|calls|] == calls;
      StreamPrefix(taken, lastdata, mbox, arrived, ended);
    }

    /** Data arrive, then a call is made. */
    method Turn(c: Call) returns (r: Result)
      requires Valid()
      modifies this
      ensures Valid() && old(arrived) <= arrived && (old(ended) ==> ended && arrived == old(arrived))
      ensures taken == old(taken) + Took(c, r) && taken <= arrived && RightAt(c, r, |old(taken)|, arrived)
      ensures r.ret == 0 && c.len > 0 ==> ended && taken == arrived
      ensures !c.peek ==> |Took(c, r)| >= Min(Limit(c.len), |old(arrived)| - |old(taken)|)
    {
      Network();
      r := OneCall(c);
    }

    method OneCall(c: Call) returns (r: Result)
      requires Valid()
      modifies this
      ensures Valid() && old(arrived) <= arrived && (old(ended) ==> ended && arrived == old(arrived))
      ensures taken == old(taken) + Took(c, r) && taken <= arrived && RightAt(c, r, |old(taken)|, arrived)
      ensures r.ret == 0 && c.len > 0 ==> ended && taken == arrived
      ensures !c.peek ==> |Took(c, r)| >= Min(Limit(c.len), |old(arrived)| - |old(taken)|)
    {
      var mem := new byte[c.len];
      ghost var taken0 := taken;
      var ret := RecvTcp(mem, c.len, c.peek, c.dontWait);
      r := Result(ret, if ret > 0 then mem[..ret] else []);
      StreamPrefix(taken, lastdata, mbox, arrived, ended);
      CallRight(c, ret, mem[..], taken0, taken, arrived);
    }
  }

  datatype Call = Call(len: nat, peek: bool, dontWait: bool)

  /** What a call has returned, and the bytes it has put into the caller's memory. */
  datatype Result = Result(ret: int, bytes: seq<byte>)

  function Limit(len: nat): nat {
    if len <= SSIZE_MAX then len else SSIZE_MAX
  }

  /** The bytes a call has taken off the stream. */
  function Took(c: Call, r: Result): seq<byte> {
    if c.peek then [] else r.bytes
  }

  function Read(calls: seq<Call>, results: seq<Result>): seq<byte>
    requires |calls| == |results|
  {
    if calls == [] then []
    else
      var n := |calls| - 1;
      Read(calls[..n], results[..n]) + Took(calls[n], results[n])
  }

  /** Every call has returned the bytes behind those taken before it. */
  ghost predicate AllRight(calls: seq<Call>, results: seq<Result>, arrived: seq<byte>)
    requires |calls| == |results|
  {
    forall i {:trigger Right(calls, results, i, arrived)} | 0 <= i < |calls| :: Right(calls, results, i, arrived)
  }

  ghost predicate Right(calls: seq<Call>, results: seq<Result>, i: nat, arrived: seq<byte>)
    requires i < |calls| == |results|
  {
    RightAt(calls[i], results[i], |Read(calls[..i], results[..i])|, arrived)
  }

  lemma {:induction false} CallRight(c: Call, ret: int, mem: seq<byte>, taken0: seq<byte>, taken: seq<byte>,
                                     arrived: seq<byte>)
    requires |mem| == c.len && -1 <= ret <= c.len && taken <= arrived
    requires ret > 0 && !c.peek ==> taken == taken0 + mem[..ret]
    requires ret > 0 && c.peek ==> |taken| + ret <= |arrived| && mem[..ret] == arrived[|taken|..|taken| + ret]
    requires ret <= 0 || c.peek ==> taken == taken0
    ensures var r := Result(ret, if ret > 0 then mem[..ret] else []);
            taken == taken0 + Took(c, r) && RightAt(c, r, |taken0|, arrived)
  {
  }

  predicate RightAt(c: Call, r: Result, at: nat, arrived: seq<byte>) {
    && -1 <= r.ret <= c.len && |r.bytes| == Max0(r.ret)
    && at + |r.bytes| <= |arrived| && r.bytes == arrived[at..at + |r.bytes|]
  }

  /** Some call has reported the end. */
  ghost predicate Eof(calls: seq<Call>, results: seq<Result>)
    requires |calls| == |results|
  {
    exists i :: 0 <= i < |calls| && results[i].ret == 0 && calls[i].len > 0
  }

  /** What the calls without peeking have room for. */
  function Asked(calls: seq<Call>): nat {
    if calls == [] then 0
    else
      var n := |calls| - 1;
      Asked(calls[..n]) + if calls[n].peek then 0 else Limit(calls[n].len)
  }

  /** What the results of calls say: the bytes behind those taken before each; the end only when all has been
    * taken; and the first bytes, as far as the calls have room for them. */
  ghost predicate Told(calls: seq<Call>, results: seq<Result>, arrived: seq<byte>, ended: bool, first: nat)
    requires |calls| == |results|
  {
    && AllRight(calls, results, arrived)
    && (Eof(calls, results) ==> ended && Read(calls, results) == arrived)
    && |Read(calls, results)| >= Min(first, Asked(calls))
  }

  lemma {:induction false} ToldGoesOn(calls: seq<Call>, results: seq<Result>, i: nat, r: Result,
                                      a0: seq<byte>, e0: bool, arrived: seq<byte>, ended: bool, first: nat)
    requires i < |calls| && |results| == i && a0 <= arrived && Told(calls[..i], results, a0, e0, first) && first <= |a0|
    requires e0 ==> ended && arrived == a0
    requires RightAt(calls[i], r, |Read(calls[..i], results)|, arrived)
    requires Read(calls[..i], results) <= a0
    requires r.ret == 0 && calls[i].len > 0 ==> ended && Read(calls[..i], results) + Took(calls[i], r) == arrived
    requires !calls[i].peek ==>
               |Took(calls[i], r)| >= Min(Limit(calls[i].len), |a0| - |Read(calls[..i], results)|)
    ensures Read(calls[..i + 1], results + [r]) == Read(calls[..i], results) + Took(calls[i], r)
    ensures Told(calls[..i + 1], results + [r], arrived, ended, first)
  {
    var c, all := calls[..i + 1], results + [r];
    ReadGoesOn(calls, results, i, r);
    assert AllRight(c, all, arrived) by { RightGoesOn(calls, results, i, r, a0, arrived); }
    assert Eof(c, all) ==> ended && Read(c, all) == arrived by { EofGoesOn(calls, results, i, r); }
  }

  lemma {:induction false} ReadGoesOn(calls: seq<Call>, results: seq<Result>, i: nat, r: Result)
    requires i < |calls| && |results| == i
    ensures Read(calls[..i + 1], results + [r]) == Read(calls[..i], results) + Took(calls[i], r)
    ensures Asked(calls[..i + 1]) == Asked(calls[..i]) + if calls[i].peek then 0 else Limit(calls[i].len)
  {
    assert calls[..i + 1][..i] == calls[..i] && (results + [r])[..i] == results;
  }

  lemma {:induction false} EofGoesOn(calls: seq<Call>, results: seq<Result>, i: nat, r: Result)
    requires i < |calls| && |results| == i
    ensures Eof(calls[..i + 1], results + [r]) ==> Eof(calls[..i], results) || (r.ret == 0 && calls[i].len > 0)
  {
    if Eof(calls[..i + 1], results + [r]) {
      var k :| 0 <= k < i + 1 && (results + [r])[k].ret == 0 && calls[..i + 1][k].len > 0;
      if k < i { assert results[k].ret == 0 && calls[..i][k].len > 0; }
    }
  }

  lemma {:induction false} RightGoesOn(calls: seq<Call>, results: seq<Result>, i: nat, r: Result,
                                       before: seq<byte>, arrived: seq<byte>)
    requires i < |calls| && |results| == i && before <= arrived && AllRight(calls[..i], results, before)
    requires RightAt(calls[i], r, |Read(calls[..i], results)|, arrived)
    ensures AllRight(calls[..i + 1], results + [r], arrived)
  {
    var c, all := calls[..i + 1], results + [r];
    forall k {:trigger Right(c, all, k, arrived)} | 0 <= k <= i ensures Right(c, all, k, arrived) {
      assert c[..k] == calls[..k];
      if k < i {
        assert Right(calls[..i], results, k, before);
        assert calls[..i][..k] == calls[..k] && all[..k] == results[..k] && all[k] == results[k];
        Grows(c[k], all[k], |Read(c[..k], all[..k])|, before, arrived);
      } else {
        assert all[..k] == results;
      }
    }
  }

  lemma {:induction false} Grows(c: Call, r: Result, at: nat, before: seq<byte>, arrived: seq<byte>)
    requires RightAt(c, r, at, before) && before <= arrived
    ensures RightAt(c, r, at, arrived)
  {
  }

  function Max0(x: int): nat {
    if x < 0 then 0 else x
  }

  /** A call has put n bytes into mem, the ones taken since it began. */
  ghost predicate Copied(mem0: seq<byte>, mem: seq<byte>, n: nat, taken0: seq<byte>, taken: seq<byte>) {
    n <= |mem| == |mem0| && mem == mem[..n] + mem0[n..] && taken == taken0 + mem[..n]
  }

  /** A peek has put n bytes into mem, the next ones of the stream. */
  ghost predicate Peeked(mem0: seq<byte>, mem: seq<byte>, n: nat, taken: seq<byte>, arrived: seq<byte>) {
    n <= |mem| == |mem0| && mem == mem[..n] + mem0[n..] && |taken| + n <= |arrived|
      && mem[..n] == arrived[|taken|..|taken| + n]
  }

  lemma {:induction false} CopiedOn(mem0: seq<byte>, mem: seq<byte>, now: seq<byte>, n: nat, taken0: seq<byte>,
                                    taken: seq<byte>, p: seq<byte>)
    requires Copied(mem0, mem, n, taken0, taken) && |now| == |mem| && n + |p| <= |mem|
    requires now == mem[..n] + p + mem[n + |p|..]
    ensures Copied(mem0, now, n + |p|, taken0, taken + p) && now[..n + |p|] == mem[..n] + p
  {
  }

  /** pbuf_copy_partial from the front of a pbuf. */
  method CopyOut(mem: array<byte>, at: nat, p: seq<byte>, n: nat)
    requires n <= |p| && at + n <= mem.Length
    modifies mem
    ensures mem[..] == old(mem[..])[..at] + p[..n] + old(mem[..])[at + n..]
  {
    var i := 0;
    while i < n
      invariant 0 <= i <= n && mem[..] == old(mem[..])[..at] + p[..i] + old(mem[..])[at + i..]
    {
      mem[at + i] := p[i];
      i := i + 1;
    }
  }

  /** The front of a mailbox is taken out. */
  lemma {:induction false} Fetched(mbox: seq<Item>)
    requires mbox != [] && InOrder(mbox)
    ensures InOrder(mbox[1..]) && (HasEnd(mbox[1..]) ==> HasEnd(mbox))
    ensures mbox[0].Data? ==> Bytes(mbox) == mbox[0].bytes + Bytes(mbox[1..])
    ensures mbox[0].End? ==> Bytes(mbox) == [] && HasEnd(mbox)
  {
    if HasEnd(mbox[1..]) {
      var i :| 0 <= i < |mbox[1..]| && mbox[1..][i].End?;
      assert mbox[i + 1].End?;
    }
  }
}
