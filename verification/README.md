# lwIP 2.1.2 in Dafny

A model of the parts of lwIP 2.1.2 that keep state and can go wrong, with proofs of what they keep.
`dafny verify dfyconfig.toml` checks all of it.

| part | files | what it models |
|---|---|---|
| heap | `HeapLayout`, `Heap` | `mem.c`: first fit over headers inside one array, split, trim, two-sided merging, the lowest-free pointer. `HeapLayout` holds the rows of blocks and their laws, `Heap` the class that rewrites the headers |
| packet buffers | `PbufMemory`, `PbufRef`, `PbufAlloc`, `PbufResize`, `PbufCopy`, `CopyLengths`, `PbufRun`, `PbufLengths` | `pbuf.c`: chains with shared tails in one memory, reference counts, 16-bit length fields, resizing, copies; `CopyLengths` is the loop of `pbuf_copy` on lengths alone, `PbufRun` and `PbufLengths` are about runs of calls |
| checksum | `Checksum`, `ChainChecksum` | `inet_chksum.c`: the three algorithms, chains with pseudo headers, partial sums, incremental filling |
| timers | `TimerOrder`, `TimerCheck`, `TimerReal`, `Timeouts` | `timeouts.c`: the order of times under a wrapping clock, `sys_check_timeouts` as a machine over every behaviour of the handlers, the same on a clock that never wraps (`TimerReal`), and the class that changes the list in place and refines the machine |
| resolver | `DnsName`, `DnsTable`, `DnsHistory`, `DnsAge`, `Dns` | `dns.c`: the name encoder and its two readers; the tables as a state machine over runs (`DnsTable`; what its runs mean in terms of the lookups made in `DnsHistory`, one long run in `DnsAge`) and as a class with two arrays that refines it (`Dns`) |
| sockets | `SocketLifetime`, `Select`, `SelectEvents`, `RecvStream`, `VectorWrite` | `sockets.c`, `api_lib.c`, `api_msg.c`: descriptor lifetime and select wake-up as machines whose steps are the protected sections, taken by any threads in any order, the latter also in terms of the events alone (`SelectEvents`); the TCP receive stream; the resumable write |

Words of 8, 16 and 32 bits are written out with their wrap-around (`Words`). Addresses are natural numbers with 0 for
NULL; a payload is the sequence of its visible bytes. Configuration: little-endian, asserts compiled out (most are
proved or required of the caller, see "Left out"), `LWIP_ALLOW_MEM_FREE_FROM_OTHER_CONTEXT` 0, `MEM_OVERFLOW_CHECK` 0,
`LWIP_NETCONN_FULLDUPLEX` 1 for the descriptor lifetime and 0 elsewhere, `LWIP_TCPIP_CORE_LOCKING` 0, one IP version,
no mDNS, `LWIP_DNS_SECURE` with only the check against multiple outstanding queries. `tcp_write`, `tcp_sndbuf`,
`tcp_output`, arriving packets, the passing of time, pool exhaustion and the bytes of fresh buffers are
nondeterministic.

## Where the code does not do what it says

Each is a lemma with an input or a run that shows it, next to the exact condition under which the code is right.

* `pbuf_dechain` tells whether the rest was deallocated by testing an 8-bit count of freed pbufs, which is 0 again
  after 256 (`PbufResize.DechainAnswerIff`, `PbufResize.DechainAnswerFails`).
* The assertion marked "delete me" in `inet_cksum_pseudo_partial_base` does not hold on every input; the sum is right
  all the same (`ChainChecksum.PartialSum`, `ChainChecksum.PartialAssertFails`).
* Where chains share pbufs, a call that changes the length fields along one of them leaves those of the others behind
  (`PbufLengths.LengthsInRun`, `PbufLengths.StepLengths`, `PbufLengths.SharedCatFails`).
* `pbuf_copy` can fail although there is room when a chain ends in an empty pbuf, which it takes for a queue of packets;
  the lengths of the two chains decide (`CopyLengths.RunStops`, `PbufCopy.Copy`, `PbufCopy.CopyFails`).
* The assertion in the second branch of `mem_trim` fails when the last block of the heap is split: its `next` is the
  end marker; the trimming is right all the same (`Heap.MemHeap.Trim`, `Heap.TrimAssertFails`).
* `sys_check_timeouts` need not return if handlers start timers that are due at once (`TimerCheck.EndsIff`,
  `TimerCheck.NeverEnds`).
* `sys_timeouts_sleeptime` answers 0 for a timer exactly 2^31 ms away, which is not due; a timer gets so far away by
  being overdue, or with the assertion of `sys_timeout` compiled out (`Timeouts.SleepIs`, `Timeouts.SleepFails`).
* A name with an empty label other than the first, or a label of 192 bytes or more, is sent but not recognised when it
  comes back (`DnsName.ReadBack`, `DnsName.UnreadableNames`).
* `dns_enqueue` looks for the oldest answered entry from age 0 on and takes only older ones, so that an answer whose
  age is a multiple of 256 never makes room (`DnsTable.FullIff`, `DnsAge.AgeZeroBlocks`).
* The assertion in `sock_inc_used_locked` fails for the descriptor of a socket that was closed while in use: the flag
  stays set after the free (`SocketLifetime.LockedAssertHolds`, `SocketLifetime.LockedAssertFails`).
* A peek at the end of a TCP stream uses the end up: it shuts the receive side, and the read that follows fails
  instead of returning 0 (`RecvStream.TcpSocket.RecvTcp`, `RecvStream.TcpSocket.PeekThenRead`).
* A selector can sleep on data that another reader of the same socket has left in `lastdata`
  (`Select.SleepsOnDataIff`, `Select.SleepsOnData`).
* A vectored write limited to `SSIZE_MAX` keeps all its vectors, so that it can step over its limit and then never
  count as complete (`VectorWrite.OverrunIff`, `VectorWrite.OverrunLasts`, `VectorWrite.LimitOverrun`).

## Model

| member | source | states |
|---|---|---|
| `HeapLayout.RoundedIs` | Lwip-2.1.2/core/mem.c:840-858 | the rounded size is aligned, holds the request, and is refused exactly if it exceeds the heap or wraps |
| `HeapLayout.BlocksDisjoint` | Lwip-2.1.2/core/mem.c:566-608 | any two blocks of a well-formed heap are disjoint, headers included, and inside the heap |
| `HeapLayout.AllocGood` | Lwip-2.1.2/core/mem.c:886-926 | allocation keeps the heap well formed; exactly one live block is new: it starts where the free block did and has the size asked for if another block fits behind it, and all of the free block if not |
| `HeapLayout.ReleaseGood` | Lwip-2.1.2/core/mem.c:473-510 | freeing keeps the heap well formed and removes exactly the block freed from the live ones |
| `HeapLayout.TrimGood` | Lwip-2.1.2/core/mem.c:699-820 | trimming keeps the heap well formed and changes only the block trimmed: it gets the smaller length if and only if its successor is free or the bytes given up can hold a block; the free block behind then starts at its new end and reaches as far as before |
| `HeapLayout.LiveDetermines` | Lwip-2.1.2/core/mem.c:474-508 | two well-formed heaps with the same allocated blocks are the same: merging leaves no choice, and the laws about live blocks say all about the heap |
| `HeapLayout.TrimFits` | Lwip-2.1.2/core/mem.c:724-746 | trimming to no more than the length of a block passes every test that could refuse it |
| `HeapLayout.AllocRelease` | Lwip-2.1.2/core/mem.c:616-686 | freeing what was just allocated restores the heap exactly |
| `HeapLayout.AllFreed` | Lwip-2.1.2/core/mem.c:473-545 | a well-formed heap without live blocks is the one `mem_init` makes |
| `HeapLayout.After` | Lwip-2.1.2/core/mem.c:566-608 | after every run of malloc, free and trim calls the heap is well formed |
| `HeapLayout.AllFreedInRun` | Lwip-2.1.2/core/mem.c:473-545 | whenever all that a run allocated has been freed, the heap is the initial one |
| `HeapLayout.FirstFit` | Lwip-2.1.2/core/mem.c:867-888 | the first free block that is large enough, or none |
| `Heap.MemHeap.constructor` | Lwip-2.1.2/core/mem.c:516-545 | `mem_init`: one free block and the end marker |
| `Heap.MemHeap.PlugHoles` | Lwip-2.1.2/core/mem.c:473-510 | merges a block just freed with free neighbours on both sides |
| `Heap.MemHeap.LinkValid` | Lwip-2.1.2/core/mem.c:550-564 | the test passes for every header of a valid heap |
| `Heap.MemHeap.Sanity` | Lwip-2.1.2/core/mem.c:567-607 | none of the assertions of `mem_sanity` fails in a valid heap |
| `Heap.MemHeap.Free` | Lwip-2.1.2/core/mem.c:616-686 | refines release on the row of blocks, rejects without effect other pointers: misaligned, out of range, to a free block, or to a header that is left over from a block since united and still lies in a free block; keeps `lfree` the lowest free block, disturbs no live byte |
| `Heap.MemHeap.FreeTwice` | Lwip-2.1.2/core/mem.c:648-668 | the second free of a block has no effect, wherever the first one has united it |
| `Heap.StaleApart` | Lwip-2.1.2/core/mem.c:473-510 | no header and no allocated block overlaps a header that is left over: splits and allocations forget those they overwrite or hand out |
| `Heap.MemHeap.Trim` | Lwip-2.1.2/core/mem.c:699-820 | refines trimming: a larger size is refused, a smaller one always gives the tail to a free successor, and to a new block if there is room for one; and tells exactly when all its assertions hold |
| `Heap.TrimAssertFails` | Lwip-2.1.2/core/mem.c:777-790 | a heap filled by one block, which is trimmed: the work is done, the assertion does not hold |
| `Heap.MemHeap.TrimSmaller` | Lwip-2.1.2/core/pbuf.c:437-448 | the pointer is kept when a block is trimmed to no more than it has, so that the assertion on `mem_trim` in `pbuf_realloc` holds; those of `mem_trim` hold unless the last block is split |
| `Heap.MemHeap.Malloc` | Lwip-2.1.2/core/mem.c:830-976 | refines first-fit allocation; NULL exactly if the request is 0, does not fit the checks or no free block holds it; aligned result, no live byte disturbed |
| `Heap.NoneFits` | Lwip-2.1.2/core/mem.c:867-872 | the scan that stops `size` bytes before the end misses no block |
| `Heap.MemHeap.AdjustLowest` | Lwip-2.1.2/core/mem.c:930-951 | `lfree` moves to the next free block or the end marker |
| `PbufRef.EveryPbufHeld` | Lwip-2.1.2/core/pbuf.c:690-724 | with balanced counts every pbuf in memory is reachable from a holder: nothing leaks |
| `PbufRef.Free` | Lwip-2.1.2/core/pbuf.c:725-800 | frees the head run of counts one and returns its length modulo 256 |
| `PbufRef.FreeExactly` | Lwip-2.1.2/core/pbuf.c:725-800 | exactly the maximal head run is gone, the next pbuf has one reference less, all others are untouched |
| `PbufRef.FreeBalanced` | Lwip-2.1.2/core/pbuf.c:725-800 | giving up a held reference keeps all counts equal to holders plus predecessors |
| `PbufRef.Ref` | Lwip-2.1.2/core/pbuf.c:829-836 | one reference more |
| `PbufRef.RefBalanced` | Lwip-2.1.2/core/pbuf.c:829-836 | keeps counts balanced with one more holder |
| `PbufRef.Cat` | Lwip-2.1.2/core/pbuf.c:853-875 | links the tail behind the last pbuf and adds to the length fields on the way |
| `PbufRef.CatExactly` | Lwip-2.1.2/core/pbuf.c:853-875 | pbuf by pbuf: the first chain counts the bytes of the second, its last pbuf leads there, and nothing else changes |
| `PbufRef.CatChain` | Lwip-2.1.2/core/pbuf.c:853-875 | the bytes of the result are the bytes of both chains |
| `PbufRef.LastTotal` | Lwip-2.1.2/core/pbuf.c:866-867 | both assertions of `pbuf_cat` hold for chains with lengths right modulo 2^16 |
| `PbufRef.CatTotals` | Lwip-2.1.2/core/pbuf.c:853-875 | length fields stay right modulo 2^16 and are exact if and only if the whole fits 16 bits |
| `PbufRef.CatBalanced` | Lwip-2.1.2/core/pbuf.c:838-875 | takes over the caller's reference on the tail |
| `PbufRef.Chain` | Lwip-2.1.2/core/pbuf.c:895-901 | as cat, with a reference added to the tail, also without a head; nothing without a tail |
| `PbufRef.ChainBalanced` | Lwip-2.1.2/core/pbuf.c:877-901 | the caller keeps its reference on the tail |
| `PbufAlloc.AllocPool` | Lwip-2.1.2/core/pbuf.c:234-274 | a chain of exactly `length` bytes with exact length fields and one reference for the caller, every buffer full but the last one and the first shorter by the header space, nothing else touched; or NULL with the memory as before, however far it had got |
| `PbufAlloc.GivesBack` | Lwip-2.1.2/core/pbuf.c:243-250 | freeing a half-built chain restores the memory exactly |
| `PbufResize.Dechain` | Lwip-2.1.2/core/pbuf.c:912-940 | cuts the first pbuf off, drops its reference on the rest, answers by the 8-bit count; both assertions hold exactly if `tot_len` is the first length plus `tot_len` of the rest |
| `PbufResize.HeadTotalIff` | Lwip-2.1.2/core/pbuf.c:919-938 | with lengths right modulo 2^16 they hold if and only if the two fit 16 bits together |
| `PbufResize.DechainBalanced` | Lwip-2.1.2/core/pbuf.c:912-940 | counts stay balanced for the same holders |
| `PbufResize.DechainRest` | Lwip-2.1.2/core/pbuf.c:912-940 | a rest that is still referenced keeps its bytes and exact lengths |
| `PbufResize.DechainFields` | Lwip-2.1.2/core/pbuf.c:912-940 | pbuf by pbuf: the first stands alone; exactly the head run of counts one is gone, the pbuf behind it has one reference less, and no flag, payload or other field changes |
| `PbufResize.DechainAnswerIff` | Lwip-2.1.2/core/pbuf.c:903-940 | the documented answer is given if and only if the number of pbufs freed is 0 or no multiple of 256 |
| `PbufResize.DechainAnswerFails` | Lwip-2.1.2/core/pbuf.c:930-939 | a chain on which it is not given |
| `PbufResize.RemoveHeader` | Lwip-2.1.2/core/pbuf.c:582-613 | moves the payload of one pbuf behind the bytes dropped and counts them no more, or fails without effect |
| `PbufResize.FreeHeader` | Lwip-2.1.2/core/pbuf.c:671-688 | leaves the chain without its first `size` bytes, with exact lengths and balanced counts |
| `PbufResize.HeaderFields` | Lwip-2.1.2/core/pbuf.c:671-688 | pbuf by pbuf: those given up are gone, or stand alone with one reference less if something else refers to them; the first of the rest starts behind the bytes dropped; nothing else changes |
| `PbufResize.HeaderStops` | Lwip-2.1.2/core/pbuf.c:675-686 | a pbuf is given up only while bytes are left to be dropped |
| `PbufResize.Realloc` | Lwip-2.1.2/core/pbuf.c:402-459 | leaves exactly the first `new_len` bytes, exact lengths on every kept pbuf, balanced counts; never grows |
| `PbufResize.ReallocFields` | Lwip-2.1.2/core/pbuf.c:420-458 | pbuf by pbuf: payloads, flags and references stay; the last pbuf kept ends where the new length does, those in front of it only count fewer bytes |
| `PbufResize.Split64k` | Lwip-2.1.2/core/pbuf.c:1113-1147 | from lengths right modulo 2^16 to a front of at most 0xFFFF bytes with exact lengths and the remainder, no byte lost |
| `PbufResize.SplitFields` | Lwip-2.1.2/core/pbuf.c:1113-1147 | pbuf by pbuf: the rest has a FIN exactly if its first pbuf or that of the whole chain had one; no other flag and no byte changes, links at the cut alone and lengths in the front alone |
| `PbufRun.RunOk` | Lwip-2.1.2/core/pbuf.c:402-940 | over every run of alloc, ref, free, cat, chain, dechain, free_header, realloc and split_64k calls by holders: each count is the number of holders plus predecessors, no link dangles, every chain ends |
| `PbufRun.AllGivenBack` | Lwip-2.1.2/core/pbuf.c:402-940 | whenever all references have been given back, every pbuf has been deallocated |
| `PbufLengths.LengthsIff` | Lwip-2.1.2/core/pbuf.c:919-938 | `tot_len` is right modulo 2^16 along every chain if and only if it is, in every pbuf, its own length plus `tot_len` of the next one |
| `PbufLengths.StepLengths` | Lwip-2.1.2/core/pbuf.c:402-940 | each of these calls keeps all length fields right if and only if it meets its condition: no pbuf from elsewhere leads to the part of the chain whose lengths it changes, or they change by nothing |
| `PbufLengths.LengthsInRun` | Lwip-2.1.2/core/pbuf.c:402-940 | over every run: all length fields are right in all states if and only if every call has met its condition |
| `PbufLengths.HeaderLengths` | Lwip-2.1.2/core/pbuf.c:671-688 | the condition of `pbuf_free_header`: a pbuf given up goes away or has nothing behind it, and nobody leads to the one that is shortened |
| `PbufLengths.ReallocLengths` | Lwip-2.1.2/core/pbuf.c:402-459 | the condition of `pbuf_realloc`: nobody else leads to the pbufs that are kept |
| `PbufLengths.SharedCatFails` | Lwip-2.1.2/core/pbuf.c:860-869 | two chains with a common last pbuf, one of which is lengthened |
| `PbufCopy.Skip` | Lwip-2.1.2/core/pbuf.c:1152-1182 | the pbuf and index of a flat offset |
| `PbufCopy.TryGetAt` | Lwip-2.1.2/core/pbuf.c:1389-1399 | the byte at a flat offset, -1 behind the end |
| `PbufCopy.PutAt` | Lwip-2.1.2/core/pbuf.c:1411-1420 | changes that flat byte only |
| `PbufCopy.CopyPartial` | Lwip-2.1.2/core/pbuf.c:1027-1057 | copies exactly the flat slice, as far as there is one, and nothing else of the target |
| `PbufCopy.Take` | Lwip-2.1.2/core/pbuf.c:1196-1226 | writes the front of the flat bytes, or fails without effect |
| `PbufCopy.TakeAt` | Lwip-2.1.2/core/pbuf.c:1240-1262 | writes the flat slice at an offset, all or nothing, and no other byte |
| `PbufCopy.SpliceRoundTrip` | Lwip-2.1.2/core/pbuf.c:1027-1057 | what is written is read back, what does not overlap reads as before |
| `PbufCopy.TakeThenCopy` | Lwip-2.1.2/core/pbuf.c:1240-1262 | take_at, then copy_partial, returns the bytes written |
| `PbufCopy.Copy` | Lwip-2.1.2/core/pbuf.c:961-1012 | for any two segmentations: ERR_ARG without effect if there is no room, otherwise success exactly if the lengths do not meet `CopyLengths.Stops`; on success the target starts with the bytes of the source, and in no case has anything else changed |
| `CopyLengths.RunStops` | Lwip-2.1.2/core/pbuf.c:961-1012 | what the rounds of the loop come to for two lists of lengths: they finish if and only if the condition in closed form does not hold |
| `CopyLengths.BusyEndsNeverStop` | Lwip-2.1.2/core/pbuf.c:999-1010 | chains that do not end in an empty pbuf never meet it |
| `PbufCopy.CopyFails` | Lwip-2.1.2/core/pbuf.c:999-1010 | two chains with room that meet it: 5 bytes into 5 bytes with an empty pbuf behind the source |
| `PbufCopy.Memcmp` | Lwip-2.1.2/core/pbuf.c:1434-1461 | 0 for equality, otherwise the first difference plus one, 0xFFFF if too short |
| `PbufCopy.Memfind` | Lwip-2.1.2/core/pbuf.c:1476-1489 | the least flat index of a match from the start on, or 0xFFFF |
| `Checksum.RfcSumIsCanon` | Lwip-2.1.2/core/inet_chksum.c:68-79 | the sum of section 1 of RFC 1071 is one representative of the weighted sum modulo 65535 |
| `Checksum.RfcSumConcat` | Lwip-2.1.2/core/inet_chksum.c:274-286 | the sum of a concatenation is the sum of the parts, the second swapped behind an odd first |
| `Checksum.Chksum1` | Lwip-2.1.2/core/inet_chksum.c:80-114 | equals the reference sum exactly, without 32-bit overflow |
| `Checksum.Chksum2` | Lwip-2.1.2/core/inet_chksum.c:133-173 | equals the reference sum exactly for either alignment up to 0x20000 bytes |
| `Checksum.AddCarry` | Lwip-2.1.2/core/inet_chksum.c:209-224 | end-around carry of 32-bit addition |
| `Checksum.Chksum3` | Lwip-2.1.2/core/inet_chksum.c:189-255 | equals the reference sum exactly for every alignment and length |
| `ChainChecksum.InetChksum` | Lwip-2.1.2/core/inet_chksum.c:555-558 | the complement of the reference sum |
| `ChainChecksum.StoredChecksumVerifies` | Lwip-2.1.2/core/inet_chksum.c:544-558 | a message verifies with a stored value if and only if it is the computed checksum, up to the two zeros |
| `ChainChecksum.ChainSum` | Lwip-2.1.2/core/inet_chksum.c:259-282 | the loop over segments sums the flat bytes for every segmentation |
| `ChainChecksum.InetChksumPbuf` | Lwip-2.1.2/core/inet_chksum.c:567-588 | the checksum of the flat bytes |
| `ChainChecksum.InetChksumPseudo` | Lwip-2.1.2/core/inet_chksum.c:310-327 | the checksum of pseudo header and flat bytes |
| `ChainChecksum.Ip6ChksumPseudo` | Lwip-2.1.2/core/inet_chksum.c:343-363 | the same for IPv6 |
| `ChainChecksum.PartialSum` | Lwip-2.1.2/core/inet_chksum.c:398-440 | sums the first `chksum_len` bytes though it toggles on the whole `len`; the assertion holds exactly under its condition |
| `ChainChecksum.PartialAssertFails` | Lwip-2.1.2/core/inet_chksum.c:407-417 | a chain of 0x8000 bytes, all to be summed, on which the assertion does not hold |
| `ChainChecksum.InetChksumPseudoPartial` | Lwip-2.1.2/core/inet_chksum.c:456-473 | covers pseudo header and the first `chksum_len` bytes |
| `ChainChecksum.FillChksum` | Lwip-2.1.2/core/pbuf.c:1333-1358 | copies a piece and updates the checksum, or refuses without effect |
| `ChainChecksum.FillStep` | Lwip-2.1.2/core/pbuf.c:1342-1356 | a piece over zeros turns the sum of the buffer into the sum of the new buffer, at even and odd offsets |
| `ChainChecksum.FillRun` | Lwip-2.1.2/core/pbuf.c:1333-1358 | pieces of any lengths and parities in any order yield the one-pass sum |
| `TimerOrder.TimeLessIs` | Lwip-2.1.2/core/timeouts.c:72-73 | within a window of 2^31 the macro compares real times |
| `TimerOrder.InsertedSorted` | Lwip-2.1.2/core/timeouts.c:179-221 | insertion keeps the list sorted across the wrap and is stable for equal times |
| `Timeouts.TimerList.TimeoutAbs` | Lwip-2.1.2/core/timeouts.c:179-221 | inserts at the sorted position, does nothing if the pool is empty |
| `Timeouts.TimerList.Timeout` | Lwip-2.1.2/core/timeouts.c:290-306 | with a free pool entry exactly one timer is new, and it is due `msecs` from now in every window that holds both times; refines the action of starting it |
| `Timeouts.TimerList.Untimeout` | Lwip-2.1.2/core/timeouts.c:317-341 | refines the action of cancelling: the first match goes, its pool entry is free, nothing else changes |
| `TimerCheck.StartIs` | Lwip-2.1.2/core/timeouts.c:290-306 | `sys_timeout` adds exactly one timer, due `msecs` from now in every window, or nothing if the pool is empty |
| `TimerCheck.CancelIs` | Lwip-2.1.2/core/timeouts.c:317-341 | `sys_untimeout` removes exactly the first timer for the handler and argument, and frees its pool entry |
| `TimerOrder.NextCyclic` | Lwip-2.1.2/core/timeouts.c:241-260 | the next due time of a cyclic timer and the overload test, across the wrap |
| `TimerCheck.AgainLater` | Lwip-2.1.2/core/timeouts.c:231-261 | a cyclic timer comes back one interval behind the time it was due at or, if that has passed, one interval from now, across the wrap |
| `Timeouts.TimerList.CyclicTimer` | Lwip-2.1.2/core/timeouts.c:231-261 | refines what becomes of the list, the pool and the clock: the actions of the handler, then the timer one interval behind its due time or, if that has passed, from now |
| `Timeouts.TimerList.Work` | Lwip-2.1.2/core/timeouts.c:388-391 | refines any sequence of actions of a handler: taking time, starting and cancelling any timers |
| `Timeouts.TimerList.FireHead` | Lwip-2.1.2/core/timeouts.c:377-391 | refines one firing; the pool entry is free before the handler runs |
| `Timeouts.TimerList.CheckTimeouts` | Lwip-2.1.2/core/timeouts.c:351-396 | for every behaviour of the handlers, given action by action: the state is exactly that of the machine, the timers called are its firings in order, and it returns exactly when the head has not expired by the time the check began |
| `TimerCheck.Conserved` | Lwip-2.1.2/core/timeouts.c:351-396 | over every check: the timers at the start, started and come back are those fired, cancelled and pending; no pool entry is leaked |
| `TimerCheck.CyclicComesBack` | Lwip-2.1.2/core/timeouts.c:231-261 | every cyclic timer that has fired has come back unless the pool was empty at a start |
| `TimerCheck.CyclicKept` | Lwip-2.1.2/core/timeouts.c:231-261 | while the pool does not run dry, cyclic timers pending are those at the start and started less those cancelled |
| `TimerCheck.FiresInOrder` | Lwip-2.1.2/core/timeouts.c:351-396 | timers fire in the order of their due times, and only those due when the check began |
| `TimerCheck.DueFires` | Lwip-2.1.2/core/timeouts.c:351-396 | when the check ends nothing pending was due when it began, and each timer that was due has fired or was cancelled |
| `TimerCheck.FiresBounded` | Lwip-2.1.2/core/timeouts.c:351-396 | without delays of 0 no timer fires more often than its weight, and the check ends |
| `TimerCheck.EndsIff` | Lwip-2.1.2/core/timeouts.c:351-396 | a check ends whatever the handlers do if and only if they may not ask for a delay of 0, or no timer due has a handler |
| `TimerCheck.NeverEnds` | Lwip-2.1.2/core/timeouts.c:351-396 | handlers that start a timer due at once keep it going for any number of firings |
| `TimerReal.CheckIsReal` | Lwip-2.1.2/core/timeouts.c:351-396 | one check fires, in the same order, the timers that a check fires on a clock that never wraps; each has waited for at least its delay |
| `TimerReal.RunIsReal` | Lwip-2.1.2/core/timeouts.c:179-396 | over every run of checks and of starts and cancellations between them, however often the clock wraps: the list shows the timers of the unbounded clock, and a timer started at a time with a delay fires only in a check that begins at that time plus the delay or later |
| `TimerOrder.AtMostTwice` | Lwip-2.1.2/core/timeouts.c:231-261 | the weight of a timer is at most 2 |
| `TimerOrder.WindowMoves` | Lwip-2.1.2/core/timeouts.c:351-396 | after a check the window may move up to its start without changing the order |
| `Timeouts.TimerList.Restart` | Lwip-2.1.2/core/timeouts.c:403-420 | rebases all times to now |
| `Timeouts.RebasedKeeps` | Lwip-2.1.2/core/timeouts.c:403-420 | rebasing keeps order and spacing and makes the head due at once |
| `Timeouts.TimerList.Sleeptime` | Lwip-2.1.2/core/timeouts.c:426-443 | the answer, and exactly when it is the shortest sleep after which the head is due |
| `Timeouts.SleepIs` | Lwip-2.1.2/core/timeouts.c:426-443 | sleeping that long is exactly enough if and only if the head is not 2^31 ms away; the answer is at most 0x7FFFFFFF |
| `Timeouts.SleepFails` | Lwip-2.1.2/core/timeouts.c:434-441 | the answer 0 for a timer that is not due |
| `DnsName.SendName` | Lwip-2.1.2/core/dns.c:788-811 | writes exactly strlen + 2 bytes, the wire form, and no other byte; never overflows |
| `DnsName.EncodedText` | Lwip-2.1.2/core/dns.c:788-811 | read label by label with dots between them, what was encoded is the name again, character by character, if its labels are readable |
| `DnsName.CompareName` | Lwip-2.1.2/core/dns.c:650-698 | terminates; the offset behind the name exactly if it is uncompressed and its characters agree but for case |
| `DnsName.SkipName` | Lwip-2.1.2/core/dns.c:708-739 | terminates; the offset behind the name or the pointer that ends it |
| `DnsName.RfcNameReadable` | Lwip-2.1.2/core/dns.c:664-688 | labels of 1 to 63 bytes are readable |
| `DnsName.EncodedStop` | Lwip-2.1.2/core/dns.c:708-739 | a walk over an encoded name ends behind it if and only if its labels are readable |
| `DnsName.EncodedAgrees` | Lwip-2.1.2/core/dns.c:668-686 | every case variant of an encoded name agrees with it |
| `DnsName.LowerIs` | Lwip-2.1.2/core/dns.c:674-674 | two characters are taken for the same exactly if they are, or are the capital and the small form of a letter |
| `DnsName.ReadBack` | Lwip-2.1.2/core/dns.c:650-739 | both readers return the offset behind what the encoder wrote, whatever follows; compare exactly for readable names |
| `DnsName.UnreadableNames` | Lwip-2.1.2/core/dns.c:664-694 | names that are not read to their end: an empty label in the middle, a label of 192 bytes |
| `DnsTable.CheckedValid` | Lwip-2.1.2/core/dns.c:1047-1118 | checking an entry keeps the invariant and leaves no entry NEW |
| `DnsTable.ServerTicksIs` | Lwip-2.1.2/core/dns.c:1071-1101 | a silent server costs 1 + R(R-1)/2 ticks |
| `DnsTable.LeftFalls` | Lwip-2.1.2/core/dns.c:1070-1103 | each tick takes one from what an unanswered entry has left, and it times out exactly at one |
| `DnsTable.StepKeeps` | Lwip-2.1.2/core/dns.c:1047-1164 | every operation keeps: timers of pending entries at least 1, pending callbacks belong to entries being asked for, distinct transaction identifiers |
| `DnsTable.StepConserves` | Lwip-2.1.2/core/dns.c:941-975 | every accepted callback is pending or has been called, exactly once between them |
| `DnsTable.EnqueueEvictsNoneAsked` | Lwip-2.1.2/core/dns.c:1414-1443 | enqueuing leaves entries being asked for and their requests alone |
| `DnsTable.FullIff` | Lwip-2.1.2/core/dns.c:1414-1462 | with a free request slot a new name is refused if and only if every entry is being asked for or was answered under the current sequence number modulo 256; a name being asked for is joined |
| `DnsAge.AgeZeroBlocks` | Lwip-2.1.2/core/dns.c:1414-1443 | a run from the initial tables of two entries, 256 lookups long, after which a lookup is refused although a request is free and entry 0 has been answered |
| `DnsTable.SilentLookup` | Lwip-2.1.2/core/dns.c:1047-1118 | over every run without an answer: no call before the n-th tick, exactly one `found(NULL)` from then on |
| `DnsTable.LookupLasts` | Lwip-2.1.2/core/dns.c:1023-1118 | n is k(1 + R(R-1)/2), k being the servers set in a row from the first |
| `DnsTable.UnansweredLookup` | Lwip-2.1.2/core/dns.c:1023-1118 | both together, from `dns_enqueue` on |
| `DnsHistory.AcceptedWaits` | Lwip-2.1.2/core/dns.c:1384-1503 | every accepted lookup, joined or placed, takes the first free slot and no other, for an entry that is being asked for its name; or is called back at once if no server is set |
| `DnsHistory.SameNameIs` | Lwip-2.1.2/core/dns.c:1389-1389 | names are taken for the same exactly if they differ at most in the case of letters |
| `DnsHistory.SlotsBelong` | Lwip-2.1.2/core/dns.c:1384-1481 | in every run: each pending callback was given by the last lookup that took its slot, its entry is being asked for that lookup's name, and no name is being asked for twice |
| `DnsHistory.ResponseCalls` | Lwip-2.1.2/core/dns.c:941-975 | in every run: a response that ends a lookup calls exactly the pending callbacks whose lookups asked for the name of the entry, once for each slot, and leaves all other slots alone |
| `DnsHistory.RefusalIs` | Lwip-2.1.2/core/dns.c:1250-1354 | a response without an address moves the lookup to the next server, with all ticks of that one and those behind it, if and only if it reports an error and that server is set; any other ends it |
| `DnsHistory.AnswerLasts` | Lwip-2.1.2/core/dns.c:1104-1164 | in every run: an answer is kept for exactly its time to live in ticks, at most a week, unless a lookup takes its entry; for none at all if that is 0 |
| `DnsHistory.AgeIs` | Lwip-2.1.2/core/dns.c:1414-1432 | in every run: the age of an entry is the number of lookups given an entry since it was given its own, modulo 256 |
| `DnsHistory.EvictsOldest` | Lwip-2.1.2/core/dns.c:1414-1443 | in every run: a lookup that takes an answered entry takes the one asked for first, as far as ages are below 256 |
| `Dns.Resolver.CallFound` | Lwip-2.1.2/core/dns.c:941-975 | calls and clears exactly the requests of an entry, in slot order |
| `Dns.Resolver.CreateTxid` | Lwip-2.1.2/core/dns.c:1000-1018 | terminates with an identifier no outstanding query has |
| `Dns.Resolver.Send` | Lwip-2.1.2/core/dns.c:748-772 | a server that is not set ends the lookup |
| `Dns.Resolver.CheckEntry` | Lwip-2.1.2/core/dns.c:1047-1118 | refines the entry's machine; `--tmr` never underflows |
| `Dns.Resolver.Tmr` | Lwip-2.1.2/core/dns.c:1124-1131 | refines one tick |
| `Dns.Resolver.FindEntry` | Lwip-2.1.2/core/dns.c:1414-1443 | the first unused entry, or the first of the oldest with an age that is not 0 modulo 256 |
| `Dns.Resolver.Enqueue` | Lwip-2.1.2/core/dns.c:1375-1503 | joins, places or refuses as the tables call for; an accepted request waits for an entry that is being asked for its own name |
| `Dns.Resolver.CorrectResponse` | Lwip-2.1.2/core/dns.c:1137-1164 | refines the answer step |
| `Dns.Resolver.RefusedResponse` | Lwip-2.1.2/core/dns.c:1250-1354 | moves on to the next server, or ends the lookup |
| `SocketLifetime.SocketTable.SockIncUsed` | Lwip-2.1.2/api/sockets.c:335-369 | one use more exactly if no free is pending |
| `SocketLifetime.SocketTable.DoneSocket` | Lwip-2.1.2/api/sockets.c:377-401 | the last use of a closed socket hands the netconn out, with the protocol that the close has noted |
| `SocketLifetime.SocketTable.FreeSocketLocked` | Lwip-2.1.2/api/sockets.c:548-567 | hands the netconn out or leaves the free pending |
| `SocketLifetime.SocketTable.AllocSocket` | Lwip-2.1.2/api/sockets.c:501-538 | takes the first slot without netconn and users |
| `SocketLifetime.StepKeeps` | Lwip-2.1.2/api/sockets.c:332-611 | every protected section keeps the invariant: use counts equal uses, each netconn is in one place |
| `SocketLifetime.UseProtects` | Lwip-2.1.2/api/sockets.c:371-401 | in every run: while a thread uses a socket its netconn is neither cleared nor deleted and its slot not reallocated |
| `SocketLifetime.NoNewUse` | Lwip-2.1.2/api/sockets.c:342-346 | once a free is pending uses only get fewer |
| `SocketLifetime.AcquireIff` | Lwip-2.1.2/api/sockets.c:335-369 | in every run: a thread is given a use of a socket with a netconn if and only if that netconn has not been closed |
| `SocketLifetime.ReleasedOnce` | Lwip-2.1.2/api/sockets.c:371-401 | in every run: a netconn is released exactly once, exactly when it has been closed and nobody uses its socket |
| `SocketLifetime.FlagOfLastClose` | Lwip-2.1.2/api/sockets.c:377-401 | in every run: the protocol noted for a pending free is the one of the last close of the socket, which closed the netconn it still has |
| `SocketLifetime.LockedAssertHolds` | Lwip-2.1.2/api/sockets.c:357-369 | the assertion holds exactly if the socket still has its netconn |
| `SocketLifetime.LockedAssertFails` | Lwip-2.1.2/api/sockets.c:361-364 | a run after which it fails |
| `Select.Tables.EventCallback` | Lwip-2.1.2/api/sockets.c:2516-2558 | refines the event step |
| `Select.Tables.CheckWaiters` | Lwip-2.1.2/api/sockets.c:2576-2648 | refines one round of the walk, with its restart |
| `Select.Tables.LinkSelectCb` | Lwip-2.1.2/api/sockets.c:1770-1791 | the `prev` and `next` pointers, rewritten in place, represent the list with the new entry in front, and every interrupted walk keeps a valid pointer or a changed counter |
| `Select.Tables.UnlinkSelectCb` | Lwip-2.1.2/api/sockets.c:1794-1816 | the `prev` and `next` pointers represent the list without the entry; both assertions on `prev` hold |
| `Select.Tables.CountWaiting` | Lwip-2.1.2/api/sockets.c:2036-2069 | refines counting in `select_waiting`, with its overflow |
| `Select.Tables.Selscan` | Lwip-2.1.2/api/sockets.c:1834-1899 | refines one socket's turn in the second scan |
| `Select.StepKeeps` | Lwip-2.1.2/api/sockets.c:2036-2123 | every step keeps the invariant that no event seen by nobody is forgotten |
| `Select.NoLostWakeup` | Lwip-2.1.2/api/sockets.c:2476-2648 | in every run of any number of selectors and event sources: a selector that waits while an event it watches is reported has its semaphore signalled or a callback on its way to it |
| `Select.CallbackArrives` | Lwip-2.1.2/api/sockets.c:2586-2647 | a callback on its way signals the selector, whatever happened to the list before |
| `Select.BlockedUnready` | Lwip-2.1.2/api/sockets.c:2073-2077 | a selector waits only if its second scan found nothing |
| `Select.SleepsOnDataIff` | Lwip-2.1.2/api/sockets.c:1858-1872 | in every run: a selector whose second scan has passed a socket without finding anything overlooks data in its `lastdata` if and only if a reader has left them after the scan had passed and nobody has taken them since |
| `Select.SleepsOnData` | Lwip-2.1.2/api/sockets.c:960-1002 | a run with such a reader in which one does |
| `Select.WaitingPositive` | Lwip-2.1.2/api/sockets.c:2098-2122 | `select_waiting` is positive when a selector stops waiting |
| `SelectEvents.BuffersWait` | Lwip-2.1.2/api/sockets.c:2519-2529 | in every run: `rcvevent` is its value at the start plus the buffers reported minus those taken back |
| `SelectEvents.SendIsLast` | Lwip-2.1.2/api/sockets.c:2530-2539 | in every run: `sendevent` is what was reported last |
| `SelectEvents.ErrorStays` | Lwip-2.1.2/api/sockets.c:2540-2542 | in every run: `errevent` is set if and only if it was at the start or an error was ever reported |
| `SelectEvents.NoEventLost` | Lwip-2.1.2/api/sockets.c:2476-2648 | no wake-up is lost, with readiness counted from the events: while a selector waits and the events so far make a socket ready that it watches, its semaphore is signalled or a callback is on its way to it |
| `SelectEvents.ChecksIff` | Lwip-2.1.2/api/sockets.c:2516-2559 | in every run: an event starts a walk over the waiting selectors if and only if one counts on the socket and it is an error or makes the socket ready |
| `SelectEvents.SignalledBy` | Lwip-2.1.2/api/sockets.c:2548-2648 | in every run: a selector is only signalled after an event that left a socket ready for something it watches |
| `SelectEvents.FoundIff` | Lwip-2.1.2/api/sockets.c:1834-1899 | in every run: the second scan has found something if and only if it met a watched socket that was ready at its turn |
| `SelectEvents.PhaseIs` | Lwip-2.1.2/api/sockets.c:2036-2123 | in every run: a selector gives up joining if and only if 255 others count on the next socket it sets; it waits exactly if all are scanned and none was ready, until its time is out or it is signalled; then it counts itself off every socket it counted on |
| `RecvStream.TcpSocket.RecvData` | Lwip-2.1.2/api/api_lib.c:578-673 | fetches the next pbuf of the stream; no buffer or ERR_CLSD only if all has been taken |
| `RecvStream.TcpSocket.RecvDataTcp` | Lwip-2.1.2/api/api_lib.c:702-769 | remembers a FIN it must not report now; ERR_CLSD only after all bytes |
| `RecvStream.TcpSocket.HandleFin` | Lwip-2.1.2/api/api_lib.c:752-767 | reports the end and shuts the mailbox |
| `RecvStream.TcpSocket.Receive` | Lwip-2.1.2/api/sockets.c:932-1010 | the loop copies the next bytes of the stream and takes as many; it goes to sleep at most once, and never if it may not, or if bytes have arrived |
| `RecvStream.TcpSocket.RecvTcp` | Lwip-2.1.2/api/sockets.c:919-1018 | the next bytes, without peeking all that have arrived as far as they fit; a peek leaves the bytes in the stream; the window opens by what is returned; 0 only at the end; bytes and end never in one call; the receive side is shut exactly if the call reports the end while there is a pcb, peeking or not, and every later call returns -1; it sleeps at most once, never with bytes at hand, and a blocking call that returns nothing has slept unless the mailbox was closed or the stream had ended |
| `RecvStream.TcpSocket.PeekThenRead` | Lwip-2.1.2/api/sockets.c:948-957 | with the end pending a peek returns 0 and the read behind it -1; without the peek the read returns 0 |
| `RecvStream.TcpSocket.Session` | Lwip-2.1.2/api/sockets.c:919-1018 | over every sequence of calls with data arriving in between, from the result of each call: the bytes read are a prefix of the stream, each call returns the bytes behind those read before, the window was opened by as many, all of it once the end is reported, and what had arrived at first as far as the calls have room |
| `VectorWrite.Advances` | Lwip-2.1.2/api/api_msg.c:1713-1725 | the bytes handed to `tcp_write` are the next ones of the concatenation and the cursor moves behind them |
| `VectorWrite.LoopIs` | Lwip-2.1.2/api/api_msg.c:1674-1726 | what one loop writes: a vector a round, up to the first error, the first lack of room or the last vector; the offset behind it, and the result it ends with |
| `VectorWrite.EndsOnlyIf` | Lwip-2.1.2/api/api_msg.c:1743-1800 | over every run of a blocking write: it has ended if and only if its pcb was lost, there was no route, `tcp_write` failed for good, or it accepted all that was offered and all is written; that step is the last, gives one signal, and decides the error |
| `VectorWrite.WaitsThroughMem` | Lwip-2.1.2/api/api_msg.c:1757-1776 | within the limit: a blocking write goes on if and only if bytes are left and none of the other reasons has occurred, however often memory was short |
| `VectorWrite.NonBlockingEnds` | Lwip-2.1.2/api/api_msg.c:1690-1782 | a write that does not block ends at once: by lack of room or memory with ERR_WOULDBLOCK exactly if nothing was written and with ERR_OK otherwise; a missing route or another failure is reported |
| `VectorWrite.OverrunIff` | Lwip-2.1.2/api/api_lib.c:1020-1040 | some run of a blocking write hands out all vectors, passes its length and still waits, if and only if the vectors exceed `SSIZE_MAX` |
| `VectorWrite.OverrunLasts` | Lwip-2.1.2/api/api_msg.c:1738-1802 | from then on, over every run, the offset stays behind the length and the write never ends with ERR_OK |
| `VectorWrite.WithinLimit` | Lwip-2.1.2/api/api_msg.c:1651-1657 | over every run of a blocking write within the limit: while it goes on there are vectors and bytes left, as its assertions say |
| `VectorWrite.LimitOverrun` | Lwip-2.1.2/api/api_lib.c:1030-1040 | such vectors at the constant of the source: 32769 of 0xFFFF bytes each |
| `VectorWrite.Netconn.TotalSize` | Lwip-2.1.2/api/api_lib.c:1020-1027 | the total length, refused exactly if it overflows 32 bits |
| `VectorWrite.Netconn.WriteVectors` | Lwip-2.1.2/api/api_msg.c:1676-1726 | terminates; accepted bytes and cursor agree however it ends |
| `VectorWrite.Netconn.WriteMore` | Lwip-2.1.2/api/api_msg.c:1639-1803 | refines one step of the machine of a write, and lets poll_tcp look for room exactly if a non-blocking write has left bytes for want of room or memory |
| `VectorWrite.Netconn.DoWrite` | Lwip-2.1.2/api/api_msg.c:1813-1858 | takes and clears a pending error, or refuses a connection that is busy or gone, with that error and without effect; otherwise it is the first step of the machine, and one that does not block has ended when it returns |
| `VectorWrite.Netconn.SentTcp` | Lwip-2.1.2/api/api_msg.c:398-422 | one step of a write that is going on; nothing otherwise |
| `VectorWrite.Netconn.PollTcp` | Lwip-2.1.2/api/api_msg.c:357-388 | one step of a write that is going on; nothing otherwise |
| `VectorWrite.Netconn.ErrTcp` | Lwip-2.1.2/api/api_msg.c:432-505 | fails a write under way, signalling it once |
| `VectorWrite.Netconn.WriteRun` | Lwip-2.1.2/api/api_msg.c:356-505 | over every sequence of callbacks, for any total size: accepted bytes are the first `offset` of the vectors; a call that is not refused is a run of the machine from its start, so that the laws on runs apply; one signal exactly when the operation ends; ERR_OK of a blocking write means everything up to `SSIZE_MAX` |

## Left out

- Interrupt-context freeing, overflow guards, statistics and the other heap variants of `mem.c`; `mem_calloc`.
- `pbuf_alloc` of types other than PBUF_POOL, custom pbufs, adding headers, coalescing and packet queues: thin wrappers, or excluded by the code itself.
- Assertions of the functions modelled that are neither proved, nor required, nor told by the model: the limit on `msecs` in `sys_timeout` and the full pool in `sys_timeout_abs` (both cases are covered as the code goes on from there), the illegal frees in `mem_free` (refused without effect), the alignment of payloads, `select_waiting == 0` in `alloc_socket`, the address types in `dns_call_found`. NULL tests of arguments that the model cannot pass are not stated either.
- Heap.MemHeap.Free: a pointer to bytes that are no header is not covered: inside the data of an allocated block, or where later headers or user data have overwritten one; the original reads whatever is there as a header, and may take it for one. After a trim that moves the header of a free successor the old place of that header counts as such bytes.
- Heap.MemHeap.Malloc: header bytes in the array are arbitrary bytes, headers themselves are records beside it.
- PbufRef.Free: the returned count is stated modulo 256, which is what its 8 bits give.
- PbufResize.Realloc: the memory a PBUF_RAM pbuf gives back to the heap is not taken from the pbuf memory here; that `mem_trim` keeps the pointer is `Heap.MemHeap.TrimSmaller`.
- TimerCheck.FiresInOrder: pending times and the running time of handlers must stay within 2^31 ms, in this and the theorems beside it; the machine itself and the class have no such limit. Handlers do not call `sys_check_timeouts`, and time passes between the actions of handlers only.
- TimerReal.RunIsReal: at each check, and at each stretch between two, what is pending and what may be started lies within 2^31 ms of a point that moves on with the clock.
- DnsName.CompareName: that acceptance implies equal names, since the code does not look at the separators.
- DnsTable.UnansweredLookup: servers do not change during a lookup and callbacks do not call back into the resolver; random source ports and dual-stack address types are not modelled; a lookup always has a callback.
- Dns.Resolver.CreateTxid: with the counter as source of numbers; a random source ends only with probability one.
- `dns_recv` up to the point where it has found the entry and decided between an answer, an error and nothing.
- SocketLifetime.UseProtects: fewer than 256 uses of one socket at a time; the error path of `lwip_accept`, which deletes a netconn before freeing its socket, is outside.
- Select.NoLostWakeup: no watched socket is closed meanwhile; `select_cb_ctr` does not come round while a walk is interrupted; `rcvevent` does not overflow. The first scan and the one behind the wait are left out: they decide whether to wait at all and what is returned. Events for a connection that has no socket yet are not modelled.
- The poll API, socket options, address conversion, `lwip_recvmsg` and UDP receiving.
- RecvStream.TcpSocket.RecvDataTcp: the automatic window update, which `lwip_recv_tcp` switches off, and the mailbox's capacity.
- VectorWrite.Netconn.WriteRun: vectors of 1 to 0xFFFF bytes, no send timeout, one call at a time. Empty vectors break the assertion `offset < len`; longer ones make the 16-bit comparison of the rest ambiguous. Callbacks are followed as long as there are vectors left; what the code does behind the array of vectors is described by `VectorWrite.OverrunLasts` on the machine.
- VectorWrite.Netconn.SentTcp: the state NETCONN_CLOSE, in which it goes on closing.
- VectorWrite.Netconn.PollTcp: the state NETCONN_CLOSE, and the send timeout.
- VectorWrite.Netconn.ErrTcp: the states NETCONN_CLOSE and NETCONN_CONNECT, whose waiting calls it signals as well.
- TCP itself, `memp.c`, `netbuf.c`, `tcpip.c`, the network interfaces, the operating-system layer and the board support: not visible, or wrappers that would add only easy members.
