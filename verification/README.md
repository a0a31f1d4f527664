# Verified models of the Gizwits Wi-Fi socket firmware

The firmware is a µC/OS-II application with an lwIP stack. This project models its data structures and step
protocols in Dafny and proves what their callers rely on. Each module follows one source file or one part of it:

- `BlockLayout`, `HeaderChain`: layouts of a block heap and the headers that describe them, shared by two allocators.
  `LwipHeap`, `LwipHeapLaws`: the first-fit heap of the stack (`mem.c`). `DmemPool`, `DmemPoolLaws`: the next-fit ring
  of the operating-system port (`os_dmem.c`).
- `Memp`: pools of fixed-size elements and the check that their free lists are sane.
- `PbufChain`, `PbufData`, `PbufCopy`: chains of packet buffers as flat byte sequences, and the loops that read and
  write them. `PbufBook`, `PbufRelease`, `PbufLink`, `PbufCut`, `PbufAlloc`: reference counts and the changes of links.
  `PbufStore`: the class with all operations on packet buffers. `PbufHeap`: buffers in RAM with the blocks they come from.
- `SlipCodec`, `SlipLaws`, `SlipInput`, `SlipLink`: SLIP framing (RFC 1055), what it means byte by byte, the receiver,
  which stores its bytes in a `PbufStore`, and both ends together.
- `Recvfrom`: reading a TCP stream through the socket layer. `SelectWakeup`: the wake-up protocol of `lwip_select`, step by
  step; `SelectRuns`: what holds over its runs, told by their events.
- `Netconn`: the pending operation of a TCP connection. `Timers`: the delta-encoded timeout list. `MboxClock`: how the
  port measures the waiting for a mailbox (`sys_arch.c`).
- `DhcpServer` (RFC 2131, sections 4.3.1 and 4.3.2), `DnsTable`, `TcpPort`: tables whose invariants span whole runs.
- `Base64` (RFC 1341, section 5.2): text and decoding; `Base64Laws`: what both are, by the alphabet and by bits;
  `Base64Coder`: the coder on blocks of `LwipHeap`.

Source objects that are updated in place are classes; their `Valid()` predicates are the invariants, and every method
keeps them or states exactly when it does (allocating, referencing and linking packet buffers have fields of 16 bits),
so what follows from `Valid()` holds in every reachable state. Loops of the source are loops here, cut into several
methods where the proofs need it. Pointers into heaps and pools are offsets or addresses; packet buffers live in a map
from addresses to records. What the modelled code does not decide is a parameter or a nondeterministic choice: the
results of TCP functions, the arrival of events and messages, what a read finds in `rcvevent`, the time that passes,
and what uninitialised memory contains.

Assumptions: protected sections are atomic (`SYS_ARCH_PROTECT` disables interrupts in the port); sockets are not closed
during a select; callbacks of the resolver do not call it again; pools and heaps are only used through the modelled
operations. Nothing is assumed about the times that a mailbox reports: `Timers` takes the report and the time that
passes as independent, and `MboxClock` measures time in system ticks of ten milliseconds. Assertions are compiled out
(`LWIP_NOASSERT`), so those that can fail are results of the methods, which go on behind them. One configuration is
modelled, with the values of `lwipopts.h` and `opt.h`.

Where the code and its comments differ, the model follows the code, and the lemmas say exactly when the comment is right:

- `mem.c`: requests of 65533 to 65535 bytes wrap to the minimum block (`LwipHeapLaws.MallocHoldsRequest`); a trim to such a
  size cuts the block instead of refusing to grow it (`LwipHeapLaws.TrimRefusesToGrow`, `LwipHeapLaws.TrimCutsBlock`); larger
  sizes are cut to 16 bits: for `base64.c` beyond 65532 bytes of text or 65532 characters to decode
  (`Base64Coder.Encode`, `Base64Coder.Decode`), for `pbuf.c` where headers and payload exceed 65532
  (`PbufStore.Store.AllocRam`).
- `os_dmem.c`: requests that round to zero can hand out a block in use, and the address behind the pool
  (`DmemPoolLaws.HandedOutWasFree`, `DmemPoolLaws.ZeroRequestHandsOutUsedBlock`).
- `pbuf.c`: `pbuf_dechain` reports a released rest as still there when a multiple of 256 buffers was released
  (`PbufStore.Store.Dechain`, `PbufStore.DanglingTail`).
- `sys_arch.c`: the reported waiting time is not the time spent waiting; most of all, a message in the tick in which
  waiting began is reported as almost twelve hours, and handlers are called early (`MboxClock.PortRunTruthful`,
  `MboxClock.SameTick`, and `MboxClock.Serve` for how early).
- `sockets.c`: a receive that keeps the rest of a packet makes the socket readable but wakes nobody up, so a select call
  that had looked there before waits on (`SelectRuns.NoLostWakeup`, `SelectRuns.LeftWaiting`).
- `slipif.c`: packets of one byte more than the maximum are received whole (`SlipCodec.RoundTrip`).
- `api_msg.c`: the assertions that nothing is left of an earlier write fail after a write that an error cut short
  (`Netconn.Connection.DoWrite`, `Netconn.CutShortThenClose`), and a connect that is pending when its connection is
  deleted is never answered (`Netconn.Connection.DoDelete`, `Netconn.DeleteWhileConnecting`); with two threads on one
  connection, the signal for one can wake up the other (`Netconn.OneThread`, `Netconn.WrongThreadWoken`).
- `dns.c`: with a pending query in the first slot, a table of otherwise finished slots refuses a query when their numbers
  are above the 8-bit counter, which has wrapped (`DnsTable.Resolver.Enqueue`, `DnsTable.RefusedThoughFinished`); an
  answer with time to live zero stays for 2^32 ticks (`DnsTable.Expires`).
- `dhcp_server.c`: the comment promises leases of two hours, the constant is ten years; and a server whose address is
  near the end of its subnet has an address twice in its pool (`DhcpServer.PoolIsDistinct`,
  `DhcpServer.TwoClientsOneAddress`).
- `base64.c`: the encoding of the empty input does not decode, because the heap hands out no zero bytes
  (`Base64.RoundTrip`).

To verify, with Dafny 4.11: `dafny verify dfyconfig.toml`.

## Model

| member | source | states |
|---|---|---|
| LwipHeap.Heap.constructor | Gizwits_WIFI-Socket_SDK/Source/LwIP/src/core/mem.c:272-303 | A fresh heap is one free block that spans the whole area, with an end marker that is never free; `lfree` is on that block |
| LwipHeap.Heap.PlugHoles | Gizwits_WIFI-Socket_SDK/Source/LwIP/src/core/mem.c:234-267 | A freed block is merged with a free successor and a free predecessor, in header memory and in the layout; if `lfree` stood on an absorbed header it moves with it |
| LwipHeap.Heap.Malloc | Gizwits_WIFI-Socket_SDK/Source/LwIP/src/core/mem.c:492-632 | The search from `lfree` gives exactly the block that a search from offset 0 gives; the rest is split off when it is large enough; `lfree` is the lowest free block again, and headers still describe a tiling without two adjacent free blocks |
| LwipHeap.Heap.Free | Gizwits_WIFI-Socket_SDK/Source/LwIP/src/core/mem.c:309-355 | The block is marked free and coalesced in both directions; null and out-of-range addresses change nothing; `lfree` is the lowest free block afterwards |
| LwipHeap.Heap.Trim | Gizwits_WIFI-Socket_SDK/Source/LwIP/src/core/mem.c:367-481 | In-place shrink to the size rounded in 16 bits: the tail joins a free successor or becomes a block of its own if large enough; a rounded size larger than the block gives null and changes nothing; the header memory and `lfree` stay exact |
| LwipHeap.Heap.NextFree | Gizwits_WIFI-Socket_SDK/Source/LwIP/src/core/mem.c:598-604 | The walk that advances `lfree` stops on the lowest free block or on the end marker |
| HeaderChain.MergeDescribed | Gizwits_WIFI-Socket_SDK/Source/LwIP/src/core/mem.c:245-266 | The two link writes of a merge turn a header memory that describes a layout into one that describes the merged layout, for the linear and the circular chain |
| HeaderChain.CarveDescribed | Gizwits_WIFI-Socket_SDK/Source/LwIP/src/core/mem.c:425-469 | The header writes of a split or of a moved free header describe the layout with the cut, with `prev` inverting `next` |
| BlockLayout.TakeKeepsWellFormed | Gizwits_WIFI-Socket_SDK/Source/LwIP/src/core/mem.c:553-584 | Handing out part of a fitting free block keeps tiling, alignment, minimum payload and the absence of adjacent free blocks |
| BlockLayout.ReleaseKeepsWellFormed | Gizwits_WIFI-Socket_SDK/Source/LwIP/src/core/mem.c:336-352 | Releasing any used block keeps the same invariant |
| BlockLayout.ShrinkKeepsWellFormed | Gizwits_WIFI-Socket_SDK/Source/LwIP/src/core/mem.c:412-479 | Shrinking any used block keeps the same invariant |
| BlockLayout.TakeExact | Gizwits_WIFI-Socket_SDK/Source/LwIP/src/core/mem.c:553-584 | What handing out does to a layout, without naming how: size of the block, free area behind it, free bytes |
| BlockLayout.ShrinkExact | Gizwits_WIFI-Socket_SDK/Source/LwIP/src/core/mem.c:412-479 | What shrinking does to a layout, in the same terms, for a free successor, a split and a block that stays |
| BlockLayout.ReleaseExact | Gizwits_WIFI-Socket_SDK/Source/LwIP/src/core/mem.c:234-352 | What releasing does to a layout, in the same terms, for each combination of free neighbours |
| BlockLayout.OwnedDisjoint | Gizwits_WIFI-Socket_SDK/Source/LwIP/src/core/mem.c:492-632 | Blocks that callers own do not overlap and lie inside the heap |
| LwipHeapLaws.MallocIsLowestFit | Gizwits_WIFI-Socket_SDK/Source/LwIP/src/core/mem.c:531-610 | Malloc fails if and only if no free block fits the rounded size; otherwise it returns the lowest-addressed fitting block and adds exactly that block to what callers own |
| LwipHeapLaws.MallocTakes | Gizwits_WIFI-Socket_SDK/Source/LwIP/src/core/mem.c:553-584 | The block handed out has exactly the rounded size if there is room behind it for a header and the least payload, and is the whole free block otherwise; what is split off stays free, and the free bytes shrink by exactly what is taken and a header for the split |
| LwipHeapLaws.FreeGivesBack | Gizwits_WIFI-Socket_SDK/Source/LwIP/src/core/mem.c:234-352 | A freed block is free from end to end, and the free bytes grow by its payload and a header for each merge |
| LwipHeapLaws.RoundedIsLeast | Gizwits_WIFI-Socket_SDK/Source/LwIP/src/core/mem.c:500-515 | The rounded size is the least multiple of four that holds the request and the minimum |
| LwipHeapLaws.MallocHoldsRequest | Gizwits_WIFI-Socket_SDK/Source/LwIP/src/core/mem.c:500-521 | The returned block holds the requested bytes if and only if the request is at most 65532: the three larger sizes wrap to zero when they are aligned in 16 bits |
| LwipHeapLaws.WrappedRequest | Gizwits_WIFI-Socket_SDK/Source/LwIP/src/core/mem.c:507-515 | A concrete request, 65533, for which a fresh heap hands out twelve bytes |
| LwipHeapLaws.Request | Gizwits_WIFI-Socket_SDK/Source/LwIP/src/include/lwip/mem.h:65-90 | A size of any width is cut to 16 bits; what is granted holds the wanted bytes if and only if they are at most 65532 |
| LwipHeapLaws.MallocThenFree | Gizwits_WIFI-Socket_SDK/Source/LwIP/src/core/mem.c:336-352 | Freeing what malloc returned restores the layout exactly |
| LwipHeapLaws.TrimThenFree | Gizwits_WIFI-Socket_SDK/Source/LwIP/src/core/mem.c:412-479 | Trimming a block before freeing it leaves the layout that freeing alone leaves |
| LwipHeapLaws.TrimRefusesToGrow | Gizwits_WIFI-Socket_SDK/Source/LwIP/src/core/mem.c:363-411 | A size larger than the block gives null and leaves the block alone, as the comment promises, if and only if it is at most 65532 |
| LwipHeapLaws.TrimHoldsRequest | Gizwits_WIFI-Socket_SDK/Source/LwIP/src/core/mem.c:376-479 | After a trim that succeeds the block holds the new size if and only if that is at most 65532 |
| LwipHeapLaws.TrimGivesBack | Gizwits_WIFI-Socket_SDK/Source/LwIP/src/core/mem.c:412-479 | After a trim that succeeds the block has exactly the rounded size if its successor was free or what is cut off has room for a header and the least payload, and its old size otherwise; what is cut off is free, and the free bytes grow by exactly that, less a header if a block was added |
| LwipHeapLaws.TrimBeforeUsed | Gizwits_WIFI-Socket_SDK/Source/LwIP/src/core/mem.c:447-471 | A concrete run in which the cut end of a block in front of one in use becomes a free block |
| LwipHeapLaws.TrimCutsBlock | Gizwits_WIFI-Socket_SDK/Source/LwIP/src/core/mem.c:376-479 | A concrete run in which a trim to 65533 reports success and leaves twelve of 916 bytes that are in use |
| LwipHeapLaws.NothingOwned | Gizwits_WIFI-Socket_SDK/Source/LwIP/src/core/mem.c:234-267 | When callers own nothing the heap is one free block: coalescing is complete |
| LwipHeapLaws.RunKeepsBlocks | Gizwits_WIFI-Socket_SDK/Source/LwIP/src/core/mem.c:309-632 | Over every run of malloc, free and trim the layout stays well formed, and a block the run does not name keeps its place and size and is not handed out again |
| DmemPool.Pool.constructor | Gizwits_WIFI-Socket_SDK/Source/Ports/Cortex-M3/os_dmem.c:57-91 | A new pool with room for its two headers is one free block and a trailer, linked into a ring, with the exact free-byte count |
| DmemPool.HeadersFit | Gizwits_WIFI-Socket_SDK/Source/Ports/Cortex-M3/os_dmem.c:57-91 | The trailer stands behind the first header and inside the pool, and the free-byte count does not wrap, if and only if there is room for two headers |
| DmemPool.Pool.GetMem | Gizwits_WIFI-Socket_SDK/Source/Ports/Cortex-M3/os_dmem.c:170-262 | Next fit: null exactly when no ring position has room; otherwise the first one with room going round from the search pointer; headers form a ring with mutually inverse links and `dm_available` equals the payload of the free blocks; this holds as long as the 32-bit sum in the test for a split does not wrap below the room, which is stated exactly |
| DmemPool.Pool.Search | Gizwits_WIFI-Socket_SDK/Source/Ports/Cortex-M3/os_dmem.c:188-215 | The do-while search ends, and stops at the first position with room or after one full turn |
| DmemPool.Pool.FreeMem | Gizwits_WIFI-Socket_SDK/Source/Ports/Cortex-M3/os_dmem.c:297-340 | The block is coalesced backward and forward; `dm_available` stays exact and the search pointer is never left on an absorbed header |
| DmemPoolLaws.FullMeansNoFit | Gizwits_WIFI-Socket_SDK/Source/Ports/Cortex-M3/os_dmem.c:188-215 | For a positive rounded size the pool reports full if and only if no free block fits |
| DmemPoolLaws.SearchStops | Gizwits_WIFI-Socket_SDK/Source/Ports/Cortex-M3/os_dmem.c:188-215 | When some position has room there is exactly one next fit |
| DmemPoolLaws.HandedOutWasFree | Gizwits_WIFI-Socket_SDK/Source/Ports/Cortex-M3/os_dmem.c:170-262 | What is handed out was free if and only if the request does not round to zero (the three largest sizes, and zero in a pool without a minimum) or the search pointer is on a free block |
| DmemPoolLaws.ZeroRequestHandsOutUsedBlock | Gizwits_WIFI-Socket_SDK/Source/Ports/Cortex-M3/os_dmem.c:170-262 | A concrete run that hands out the address behind the pool and then a block in use |
| DmemPoolLaws.GetAddsOneBlock | Gizwits_WIFI-Socket_SDK/Source/Ports/Cortex-M3/os_dmem.c:217-262 | A positive request adds exactly one large-enough block to what callers own, and freeing it restores layout and free-byte count |
| DmemPoolLaws.GetTakes | Gizwits_WIFI-Socket_SDK/Source/Ports/Cortex-M3/os_dmem.c:217-255 | Exactly the rounded size is taken from a free block if there is room behind it for a header and the least allocation, and the whole block otherwise, with the exact change of the free bytes |
| DmemPoolLaws.RoundedIsLeast | Gizwits_WIFI-Socket_SDK/Source/Ports/Cortex-M3/os_dmem.c:170-178 | The rounded size is the least multiple of four that holds the request and the pool's minimum, unless rounding wraps |
| DmemPoolLaws.PoolConservation | Gizwits_WIFI-Socket_SDK/Source/Ports/Cortex-M3/os_dmem.c:217-340 | In every valid pool, free bytes, used bytes and headers add up to the pool |
| BlockLayout.TakeFreeBytes | Gizwits_WIFI-Socket_SDK/Source/Ports/Cortex-M3/os_dmem.c:222-248 | An allocation costs its payload, and one header when the block is split |
| BlockLayout.MergeFreeBytes | Gizwits_WIFI-Socket_SDK/Source/Ports/Cortex-M3/os_dmem.c:312-338 | A merge gives one header back |
| SelectWakeup.PostKeepsInv | Gizwits_WIFI-Socket_SDK/Source/LwIP/src/api/sockets.c:1253-1358 | The first protected section of an event callback (change of the socket, then the walk to the first list entry) keeps the invariant |
| SelectWakeup.PostSets | Gizwits_WIFI-Socket_SDK/Source/LwIP/src/api/sockets.c:1284-1303 | Field by field, what each event does to its socket: `rcvevent` goes up or down by one, `sendevent` is set or cleared by the two send events, `errevent` is set by errors; no other socket changes |
| SelectWakeup.ScanLooks | Gizwits_WIFI-Socket_SDK/Source/LwIP/src/api/sockets.c:1036-1209 | A scan finds a socket exactly if it is in the read set and has a packet or left-over data, in the write set and can be written, or in the exception set and has failed; the first scan ends the call if it has found one, and the second one then does not wait |
| SelectWakeup.SignalHasReason | Gizwits_WIFI-Socket_SDK/Source/LwIP/src/api/sockets.c:1305-1345 | A call is signalled only by a section of a callback whose socket has an event that the call asks for |
| SelectWakeup.WaitTakesSignal | Gizwits_WIFI-Socket_SDK/Source/LwIP/src/api/sockets.c:1165-1179 | A wait that ends without its timeout takes the one signal that the call has got |
| SelectWakeup.CallEnds | Gizwits_WIFI-Socket_SDK/Source/LwIP/src/api/sockets.c:1087-1209 | A call ends only after its first scan has looked at all its sockets, or after it has counted itself out of all of them |
| SelectWakeup.RegisterKeepsInv | Gizwits_WIFI-Socket_SDK/Source/LwIP/src/api/sockets.c:1120-1145 | Putting a select call on the list keeps the invariant, because the list counter makes running callbacks start again |
| SelectWakeup.StepKeepsInv | Gizwits_WIFI-Socket_SDK/Source/LwIP/src/api/sockets.c:1087-1358 | Every protected section of every participant, in any interleaving, keeps the invariant: list shape, exact `select_waiting` counts, at most one signal per call, and no call that is owed a signal without a callback still on its way to it |
| SelectRuns.RunKeepsInv | Gizwits_WIFI-Socket_SDK/Source/LwIP/src/api/sockets.c:1087-1358 | The invariant holds in every state of every run |
| SelectRuns.RunEvents | Gizwits_WIFI-Socket_SDK/Source/LwIP/src/api/sockets.c:1253-1303 | In every state of every run the event fields are those that the events of the run add up to: the number of receive events, whether the last send event was positive, whether there was an error, and whether the last receive left data over |
| SelectRuns.RunSets | Gizwits_WIFI-Socket_SDK/Source/LwIP/src/api/sockets.c:1087-1209 | In every state of every run a call asks for what it was started with |
| SelectRuns.NoFalseAlarm | Gizwits_WIFI-Socket_SDK/Source/LwIP/src/api/sockets.c:1253-1345 | In every run a call is signalled only if, at some step, the events of the run so far had made one of its sockets ready for it |
| SelectRuns.NoLostWakeup | Gizwits_WIFI-Socket_SDK/Source/LwIP/src/api/sockets.c:1036-1209 | In every reachable state of a run, a call that waits unsignalled, while no callback for a socket is under way, waits for nothing that the run's events have reported: there are not more packets reported than fetched for its read set, the last report on sending is not that it is possible for its write set, and no error was reported for its exception set; and data that a receive has left over are there for it if and only if they were left over after it had passed the socket and none has taken them since |
| SelectRuns.NothingOverlooked | Gizwits_WIFI-Socket_SDK/Source/LwIP/src/api/sockets.c:1036-1209 | Without such a receive the call never waits for a socket that a scan would find ready |
| SelectRuns.BehindIsLeft | Gizwits_WIFI-Socket_SDK/Source/LwIP/src/api/sockets.c:574-1209 | The calls that are left behind in a state are those the actions of the run have left behind |
| SelectWakeup.LeaveOverKeepsInv | Gizwits_WIFI-Socket_SDK/Source/LwIP/src/api/sockets.c:574-722 | A receive that keeps data in the socket, or takes them, keeps the invariant, including which calls it has left behind |
| SelectRuns.LeftWaiting | Gizwits_WIFI-Socket_SDK/Source/LwIP/src/api/sockets.c:574-1209 | A concrete run after which a call cannot go on although its socket has data to read, because keeping the rest of a packet signals nobody |
| SelectRuns.SignalledMeansWoken | Gizwits_WIFI-Socket_SDK/Source/LwIP/src/api/sockets.c:1325-1345 | A waiting call can go on if and only if it has been signalled, and it has been signalled at most once |
| SelectRuns.WaitingNeverNegative | Gizwits_WIFI-Socket_SDK/Source/LwIP/src/api/sockets.c:1148-1206 | The assertions on `select_waiting` hold in every reachable state |
| SelectWakeup.WalkMakesProgress | Gizwits_WIFI-Socket_SDK/Source/LwIP/src/api/sockets.c:1305-1358 | Each section of a callback ends it or brings it nearer to its end, unless the list changes |
| Timers.TimeoutList.Timeout | Gizwits_WIFI-Socket_SDK/Source/LwIP/src/core/timers.c:262-309 | The new entry is due after exactly `msecs`, every other entry keeps its absolute deadline, entries with equal deadlines stay in registration order, and no 32-bit field wraps; it fails only when the pool is empty; the promise made to the caller stands next to its entry |
| Timers.TimeoutList.Untimeout | Gizwits_WIFI-Socket_SDK/Source/LwIP/src/core/timers.c:320-346 | The first entry for handler and argument goes; every other absolute deadline is unchanged |
| Timers.InsertIsStable | Gizwits_WIFI-Socket_SDK/Source/LwIP/src/core/timers.c:283-307 | A sorted insertion goes behind exactly the entries due no later and changes no order between old ones |
| Timers.UnlinkDeadlines | Gizwits_WIFI-Socket_SDK/Source/LwIP/src/core/timers.c:329-341 | Giving the delta of a removed entry to its successor removes one deadline and keeps the others |
| Timers.TrackedWait | Gizwits_WIFI-Socket_SDK/Source/LwIP/src/core/timers.c:462-472 | Whatever is reported, an entry gets later by the time that passes less what is taken off the first delta; so it can still be called in time if and only if its lag before and the time that passes are together at least what is taken |
| Timers.TimeoutList.Wait | Gizwits_WIFI-Socket_SDK/Source/LwIP/src/core/timers.c:434-472 | If all promises could be kept and one of them just so, then they still can if and only if the time taken off the first delta is at most the time that has passed |
| Timers.TimeoutList.Expire | Gizwits_WIFI-Socket_SDK/Source/LwIP/src/core/timers.c:440-458 | The expired element is back in the pool before its handler, which may set and cancel timeouts, is called; the call is late by exactly what the skew of the list's clock has grown since the request, and early by what it has shrunk |
| Timers.TimeoutList.RunHandler | Gizwits_WIFI-Socket_SDK/Source/LwIP/src/core/timers.c:452-458 | Whatever a handler sets and cancels, the deadlines are those of these actions in order, and a slot is free for it |
| Timers.TimeoutList.Round | Gizwits_WIFI-Socket_SDK/Source/LwIP/src/core/timers.c:427-477 | For any report and any time that really passes: one round ends with a message, having taken part of the first deadline, or calls the first handler at the moment its wait is over; every deadline is nearer by what is taken, and the skew changes by the time that passes less that; when no more is taken than has passed, nothing is called early |
| Timers.RoundMeans | Gizwits_WIFI-Socket_SDK/Source/LwIP/src/core/timers.c:427-477 | Deadline by deadline, what a round does: with a message what is reported comes off every deadline, but no more than the first has left; otherwise the first timeout is gone, what it had left comes off the others, and its handler acts unless it is null |
| Timers.TimeoutList.MboxFetch | Gizwits_WIFI-Socket_SDK/Source/LwIP/src/core/timers.c:422-477 | Over every script of waits, messages and handlers: the handlers called, the deadlines left, the time passed and the skew are those of the rounds up to the first message; calls happen in order, each one as late or early as the skew has changed since its request, and none earlier than what the rounds have taken without its having passed |
| Timers.MessageMeansNothingDue | Gizwits_WIFI-Socket_SDK/Source/LwIP/src/core/timers.c:427-477 | A message is handed to the thread only if every deadline was still ahead when the wait for it began |
| MboxClock.ReportedIs | Gizwits_WIFI-Socket_SDK/Source/LwIP/src/core/timers.c:434-472 | (what `sys_arch_mbox_fetch` returns there, `LwIP/port/sys_arch.c` lines 193-206) What a report is worth: one millisecond more than the ticks that have passed, one tick less when the counter wraps, and 42949663 when no tick has passed |
| MboxClock.MessageTruthful | Gizwits_WIFI-Socket_SDK/Source/LwIP/src/core/timers.c:434-472 | (what `sys_arch_mbox_fetch` returns there, `LwIP/port/sys_arch.c` lines 193-206) With a message, no more is taken off a delta than the ticks that have passed if and only if the delta has passed as well, or the counter or the product with 1000 has wrapped |
| MboxClock.ExpiryTruthful | Gizwits_WIFI-Socket_SDK/Source/LwIP/src/core/timers.c:434-472 | (what `sys_arch_mbox_fetch` returns there, `LwIP/port/sys_arch.c` lines 170-178) A wait of just the time limit is as long as the delta if and only if the delta is at most 655350 and shorter than a tick or a multiple of it |
| MboxClock.LongLimit | Gizwits_WIFI-Socket_SDK/Source/LwIP/src/core/timers.c:434-472 | (what `sys_arch_mbox_fetch` does there, `LwIP/port/sys_arch.c` lines 170-178) A limit above 655350 ms is cut to 65535 ticks, and from 42949673 ms on the product with the tick rate wraps |
| MboxClock.PortRunTruthful | Gizwits_WIFI-Socket_SDK/Source/LwIP/src/core/timers.c:434-472 | (what `sys_arch_mbox_fetch` returns there, `LwIP/port/sys_arch.c` lines 165-209) Over any number of rounds with this port, in which a fetch that expires lasts its limit in ticks or longer, no round takes more than has passed if and only if each fetch meets the exact condition on its two readings and its timeout |
| Timers.TruthfulLosesNothing | Gizwits_WIFI-Socket_SDK/Source/LwIP/src/core/timers.c:434-472 | What is lost by the rounds is nothing if and only if no round takes more than has passed |
| MboxClock.OrdinaryRun | Gizwits_WIFI-Socket_SDK/Source/LwIP/src/core/timers.c:434-472 | (with `LwIP/port/sys_arch.c` lines 165-209) Without messages in the tick in which waiting began, waits beyond 655350 or wraps, the rounds take no more than one millisecond for each message and nine for each handler beyond what has passed |
| MboxClock.Serve | Gizwits_WIFI-Socket_SDK/Source/LwIP/src/core/timers.c:422-477 | Over any number of messages no handler is earlier than the rounds have taken too much, which for such fetches is one millisecond for each message and nine for each handler |
| MboxClock.SameTick | Gizwits_WIFI-Socket_SDK/Source/LwIP/src/core/timers.c:434-472 | (what `sys_arch_mbox_fetch` returns there, `LwIP/port/sys_arch.c` lines 193-206) A concrete run for every timeout up to 42949663: a message in the tick in which waiting began makes the next fetch call the handler although no time has passed |
| Memp.Pools.constructor | Gizwits_WIFI-Socket_SDK/Source/LwIP/src/core/memp.c:336-374 | After initialisation every element is on exactly one free list, and each list has its configured length |
| Memp.Pools.Sanity | Gizwits_WIFI-Socket_SDK/Source/LwIP/src/core/memp.c:180-198 | The two-pointer check ends on every link structure, cyclic ones included, and returns true if and only if every free list is acyclic |
| Memp.WalkersMeet | Gizwits_WIFI-Socket_SDK/Source/LwIP/src/core/memp.c:185-195 | The two pointers meet, or the slow one reaches the end, within a number of rounds that exists for every structure |
| Memp.CycleNeverEnds | Gizwits_WIFI-Socket_SDK/Source/LwIP/src/core/memp.c:188-192 | If the pointers meet on an element the list never ends |
| Memp.PushAcyclicIff | Gizwits_WIFI-Socket_SDK/Source/LwIP/src/core/memp.c:457-460 | Pushing an element leaves the list acyclic if and only if the element was not on it |
| Memp.Pools.Malloc | Gizwits_WIFI-Socket_SDK/Source/LwIP/src/core/memp.c:404-424 | The head element of the pool's list, or null exactly when the list is empty; no other list changes |
| Memp.Pools.Free | Gizwits_WIFI-Socket_SDK/Source/LwIP/src/core/memp.c:433-466 | An element on no list becomes the head of its pool's list; lists stay acyclic and disjoint, so the sanity assertion holds |
| PbufChain.TotalIsLength | Gizwits_WIFI-Socket_SDK/Source/LwIP/src/core/pbuf.c:253-300 | In a chain that keeps the `tot_len` invariant, `tot_len` is the number of bytes from there to the end |
| PbufData.GetAt | Gizwits_WIFI-Socket_SDK/Source/LwIP/src/core/pbuf.c:1075-1091 | The byte of the flat sequence at the offset, or zero behind its end |
| PbufChain.SliceIs | Gizwits_WIFI-Socket_SDK/Source/LwIP/src/core/pbuf.c:916-952 | The clipped slice, byte by byte: it begins at the offset and ends after the wanted length or with the chain |
| PbufChain.OverwriteIs | Gizwits_WIFI-Socket_SDK/Source/LwIP/src/core/pbuf.c:980-994 | Overwriting, byte by byte: the bytes of the new data, and all others as before |
| PbufData.CopyPartial | Gizwits_WIFI-Socket_SDK/Source/LwIP/src/core/pbuf.c:916-952 | The stored bytes are exactly the clipped slice of the flat sequence, and nothing for a null chain |
| PbufCopy.FillChain | Gizwits_WIFI-Socket_SDK/Source/LwIP/src/core/pbuf.c:980-994 | Filling overwrites the first bytes of the flat sequence, whatever the fragmentation, and touches no other buffer |
| PbufCopy.CopyChain | Gizwits_WIFI-Socket_SDK/Source/LwIP/src/core/pbuf.c:863-902 | Copying between two differently fragmented chains ends; on success the source is the prefix of the target; it succeeds whenever no buffer behind the first starts an empty rest |
| PbufCopy.FillThenRead | Gizwits_WIFI-Socket_SDK/Source/LwIP/src/core/pbuf.c:916-994 | What a fill stores in a chain is what a partial copy reads back from it, and the old bytes follow behind it |
| PbufBook.LinkCounted | Gizwits_WIFI-Socket_SDK/Source/LwIP/src/core/pbuf.c:760-765 | Linking a chain behind another turns the caller's reference into the link's, so that every count still is the number of holders and links |
| PbufBook.SplitCounted | Gizwits_WIFI-Socket_SDK/Source/LwIP/src/core/pbuf.c:813-818 | Cutting a link leaves the first buffer behind it with exactly one reference too many |
| PbufBook.DropFreesBuffer | Gizwits_WIFI-Socket_SDK/Source/LwIP/src/core/pbuf.c:656-682 | Removing a buffer whose last reference goes leaves every other count right, except one too many for its successor; all other chains and holdings are the same |
| PbufRelease.Release | Gizwits_WIFI-Socket_SDK/Source/LwIP/src/core/pbuf.c:641-692 | The loop releases exactly the leading buffers with a count of one, takes one reference from the next, and returns their number modulo 256; released pool buffers are back in the pool |
| PbufRelease.ReleaseDisturbsNothing | Gizwits_WIFI-Socket_SDK/Source/LwIP/src/core/pbuf.c:641-692 | No packet that is left changes in any byte, chain or cached length |
| PbufLink.Append | Gizwits_WIFI-Socket_SDK/Source/LwIP/src/core/pbuf.c:752-765 | Every packet that ends in the first chain is extended by the bytes of the second, all others are the same, and all counts are right; the cached lengths are right if and only if the sum of the two lengths fits 16 bits |
| PbufCut.FindEnd | Gizwits_WIFI-Socket_SDK/Source/LwIP/src/core/pbuf.c:446-467 | The walk finds the buffer in which the wanted length ends and reduces the cached lengths before it by the same amount, in 16-bit arithmetic |
| PbufCut.ShortenResult | Gizwits_WIFI-Socket_SDK/Source/LwIP/src/core/pbuf.c:469-485 | A shortened chain is the wanted prefix with right lengths; later buffers go as far as the chain held their only reference; no other packet is disturbed |
| PbufAlloc.AllocPool | Gizwits_WIFI-Socket_SDK/Source/LwIP/src/core/pbuf.c:237-313 | A pool chain is obtained if and only if the pool has enough buffers; it has exactly the wanted length, cut at the buffer sizes; on failure memory is unchanged and every element taken is back |
| PbufAlloc.AllocUndone | Gizwits_WIFI-Socket_SDK/Source/LwIP/src/core/pbuf.c:279-285 | Freeing the half-built chain restores the memory exactly |
| PbufAlloc.HeadersAdd | Gizwits_WIFI-Socket_SDK/Source/LwIP/src/core/pbuf.c:212-235 | Each layer adds its own header to those below it; the room left in the first buffer is that, aligned |
| PbufAlloc.NeededIsLeast | Gizwits_WIFI-Socket_SDK/Source/LwIP/src/core/pbuf.c:237-313 | The number of buffers taken is the least that holds the length, and at least one |
| PbufAlloc.FilledUp | Gizwits_WIFI-Socket_SDK/Source/LwIP/src/core/pbuf.c:252-301 | Every buffer of the chain but the last is full, and the last has the rest |
| PbufStore.Store.constructor | Gizwits_WIFI-Socket_SDK/Source/LwIP/src/core/pbuf.c:205-348 | An empty store with all pool elements free is valid |
| PbufStore.Store.AllocOne | Gizwits_WIFI-Socket_SDK/Source/LwIP/src/core/pbuf.c:325-347 | A buffer for memory of the caller is a chain of its own with count one, or nothing changes |
| PbufStore.Store.AllocRam | Gizwits_WIFI-Socket_SDK/Source/LwIP/src/core/pbuf.c:314-324 | Structure, headers and payload are one block of the heap for a 16-bit size; the payload fits it if and only if the aligned sizes add up to at most 65532 |
| PbufStore.RamTooSmall | Gizwits_WIFI-Socket_SDK/Source/LwIP/src/core/pbuf.c:314-318 | A concrete length, 65468, for which the heap is asked for four bytes and grants a block too small for the structure itself |
| PbufStore.RamLayout | Gizwits_WIFI-Socket_SDK/Source/LwIP/src/core/pbuf.c:314-324 | In front of the payload are 72, 52, 32 or 16 bytes, by layer, and behind it nothing but what completes the last four bytes |
| PbufStore.Store.AllocPool | Gizwits_WIFI-Socket_SDK/Source/LwIP/src/core/pbuf.c:212-313 | The pool allocation for each layer's header room, with the pool's elements conserved |
| PbufStore.Store.Ref | Gizwits_WIFI-Socket_SDK/Source/LwIP/src/core/pbuf.c:721-732 | One more reference in 16 bits and one more holder; the counts are right if and only if the counter does not wrap; null is ignored |
| PbufStore.Store.Free | Gizwits_WIFI-Socket_SDK/Source/LwIP/src/core/pbuf.c:616-693 | Giving a reference up keeps counts, cached lengths and the pool right and leaves every remaining packet as it was |
| PbufHeap.Buffers.AllocRam | Gizwits_WIFI-Socket_SDK/Source/LwIP/src/core/pbuf.c:314-324 | A buffer in RAM gets a block of the heap that nobody owned, and every other buffer keeps its own |
| PbufHeap.Buffers.Free | Gizwits_WIFI-Socket_SDK/Source/LwIP/src/core/pbuf.c:641-692 | The heap gets back exactly the blocks of the buffers that are released; all other blocks stay owned, and every buffer left has its own |
| PbufStore.Store.Cat | Gizwits_WIFI-Socket_SDK/Source/LwIP/src/core/pbuf.c:743-770 | Concatenation of the flat sequences with right counts; the cached lengths are right for every buffer if and only if the sum fits 16 bits |
| PbufStore.Store.Chain | Gizwits_WIFI-Socket_SDK/Source/LwIP/src/core/pbuf.c:784-792 | As concatenation, but the caller keeps its reference and the count grows by one; everything is right if and only if the sum and the count fit 16 bits |
| PbufStore.Store.Realloc | Gizwits_WIFI-Socket_SDK/Source/LwIP/src/core/pbuf.c:428-487 | Longer lengths change nothing; otherwise the prefix is kept and the rest released |
| PbufStore.Store.Dechain | Gizwits_WIFI-Socket_SDK/Source/LwIP/src/core/pbuf.c:801-830 | The first buffer is alone with its own length; the result tells truly whether the rest still exists if and only if the number of released buffers is not a positive multiple of 256 |
| PbufStore.DanglingTail | Gizwits_WIFI-Socket_SDK/Source/LwIP/src/core/pbuf.c:801-830 | A concrete run with 257 linked buffers after which the result is a buffer that is gone |
| PbufStore.Store.Take | Gizwits_WIFI-Socket_SDK/Source/LwIP/src/core/pbuf.c:964-994 | Error and no change when the chain is too short, otherwise the first bytes are overwritten |
| PbufStore.Store.Copy | Gizwits_WIFI-Socket_SDK/Source/LwIP/src/core/pbuf.c:850-903 | Argument errors change nothing; the source never changes; on success it is the prefix of the target |
| Recvfrom.Socket.CopyOut | Gizwits_WIFI-Socket_SDK/Source/LwIP/src/api/sockets.c:635-722 | The bytes handed out and the rest that is kept are together what was left of the packet, and as many are handed out as there are, up to those wanted |
| Recvfrom.Socket.Recv | Gizwits_WIFI-Socket_SDK/Source/LwIP/src/api/sockets.c:575-737 | For any length and any readings of `rcvevent` the returned bytes continue the stream exactly, and the window credit grows by their number; a read that must not wait is refused if and only if nothing was left over and `rcvevent` tells of nothing; another error is reported if and only if nothing was left over and fetching gives it, as 0 for a closed connection and -1 otherwise; a pushed or sufficient packet ends the read; the read takes exactly the rounds that it should |
| Recvfrom.StopsForAReason | Gizwits_WIFI-Socket_SDK/Source/LwIP/src/api/sockets.c:575-737 | A read goes on only while `rcvevent` tells of more; when it stops short although it does, the last packet was pushed, or fetching gave an error, or it must not wait and `rcvevent` told of nothing when it would have fetched |
| Recvfrom.Socket.DeliveredIsPrefix | Gizwits_WIFI-Socket_SDK/Source/LwIP/src/api/sockets.c:575-737 | The bytes of all reads so far are a prefix of the received stream, and only the unread rest of one packet is missing from what was fetched |
| SlipCodec.Output | Gizwits_WIFI-Socket_SDK/Source/LwIP/src/netif/slipif.c:114-158 | The bytes sent are the frame of the flat packet, however it is divided into buffers |
| SlipCodec.EscapedIsCollected | Gizwits_WIFI-Socket_SDK/Source/LwIP/src/netif/slipif.c:180-258 | Receiving the escaped bytes of a packet collects its first `max + 1` bytes and completes nothing |
| SlipCodec.FramesAreReceived | Gizwits_WIFI-Socket_SDK/Source/LwIP/src/netif/slipif.c:180-258 | A fresh receiver gets every non-empty packet of any list in order, shortened to what fits, and nothing else |
| SlipCodec.RoundTrip | Gizwits_WIFI-Socket_SDK/Source/LwIP/src/netif/slipif.c:114-258 | The list comes out as it went in if and only if every packet has between 1 and `max + 1` bytes |
| SlipLaws.EscapedAt | Gizwits_WIFI-Socket_SDK/Source/LwIP/src/netif/slipif.c:135-155 | Byte by byte, with the codes of RFC 1055: 192 is sent as 219 220, 219 as 219 221, any other byte as itself, each between what is sent for those before and behind it |
| SlipLaws.FrameIs | Gizwits_WIFI-Socket_SDK/Source/LwIP/src/netif/slipif.c:131-157 | A frame begins and ends with 192 and has none in between; it has one byte more for each 192 or 219 of the packet |
| SlipLaws.EscapedByte | Gizwits_WIFI-Socket_SDK/Source/LwIP/src/netif/slipif.c:203-216 | What a receiver makes of a byte behind 219: 220 and 221 are undone, any other is kept, and even 192 ends no packet there |
| SlipLaws.PlainByte | Gizwits_WIFI-Socket_SDK/Source/LwIP/src/netif/slipif.c:181-202 | What a receiver makes of any other byte: 192 completes a packet if it has bytes, the others are kept as long as it is not too long |
| SlipLink.Transfer | Gizwits_WIFI-Socket_SDK/Source/LwIP/src/netif/slipif.c:114-275 | Sending any chains and polling what was sent: if the pool is never short, the packets handed on are those that are not empty, shortened to what fits, and the same list if and only if all sizes fit; two buffers for each packet are enough |
| SlipLink.BegunFrames | Gizwits_WIFI-Socket_SDK/Source/LwIP/src/netif/slipif.c:114-258 | A stream of frames begins no more packets than there are frames |
| SlipInput.Receiver.Extend | Gizwits_WIFI-Socket_SDK/Source/LwIP/src/netif/slipif.c:218-236 | A new pool chain is appended to the full one, or becomes the first; without two free elements memory, counts and the number of free elements are as before |
| SlipInput.Receiver.Store1 | Gizwits_WIFI-Socket_SDK/Source/LwIP/src/netif/slipif.c:239-257 | The byte is stored at the next position of the chain and the position moves on, across buffers |
| SlipInput.Receiver.Finish | Gizwits_WIFI-Socket_SDK/Source/LwIP/src/netif/slipif.c:184-197 | The chain handed over holds exactly the collected bytes and is held by the caller |
| SlipInput.Receiver.RxByte | Gizwits_WIFI-Socket_SDK/Source/LwIP/src/netif/slipif.c:169-259 | Over real buffer chains each byte does what the receiver's transitions say, and a byte is lost exactly when a new chain is needed and the pool has fewer than two elements; for packets shorter than a chain it is only needed at their first byte |
| SlipInput.Receiver.Poll | Gizwits_WIFI-Socket_SDK/Source/LwIP/src/netif/slipif.c:266-275 | The packets passed on are the bytes of the chains handed over; no byte is lost if and only if the pool had two elements each time it was asked, and then the packets are those of the transitions; two elements for each packet that begins are enough |
| Netconn.Connection.DoWriteMore | Gizwits_WIFI-Socket_SDK/Source/LwIP/src/api/api_msg.c:1207-1333 | One attempt: which bytes are offered, that accepted ones extend the stream, and exactly when the write is over, with which result and length |
| Netconn.Connection.DoWrite | Gizwits_WIFI-Socket_SDK/Source/LwIP/src/api/api_msg.c:1342-1389 | Refusals are answered at once; otherwise the write is begun; the assertion in it holds unless the last write was cut short |
| Netconn.Connection.DoCloseInternal | Gizwits_WIFI-Socket_SDK/Source/LwIP/src/api/api_msg.c:746-822 | A successful close answers the pending request once; a failed one leaves it pending |
| Netconn.Connection.DoClose | Gizwits_WIFI-Socket_SDK/Source/LwIP/src/api/api_msg.c:1450-1482 | Each close request is answered at once or becomes the pending one; the assertion in it holds unless the last write was cut short |
| Netconn.Connection.DoDelete | Gizwits_WIFI-Socket_SDK/Source/LwIP/src/api/api_msg.c:831-868 | The same for deleting the connection; a pending request is still the one to be answered if and only if it is not a connect, whose message is overwritten; the assertions fail exactly for a pending connect or after a write that was cut short |
| Netconn.Connection.DoConnect | Gizwits_WIFI-Socket_SDK/Source/LwIP/src/api/api_msg.c:983-1032 | A connect becomes pending exactly when there is a block, nothing else is going on and the stack accepts it; otherwise it is answered at once |
| Netconn.Connection.DoConnected | Gizwits_WIFI-Socket_SDK/Source/LwIP/src/api/api_msg.c:936-973 | The pending connect is answered once, with the result |
| Netconn.Connection.ErrTcp | Gizwits_WIFI-Socket_SDK/Source/LwIP/src/api/api_msg.c:346-404 | Whatever is pending fails with the error and is answered once; otherwise nothing is signalled |
| Netconn.FatalIs | Gizwits_WIFI-Socket_SDK/Source/LwIP/src/include/lwip/err.h:63-72 | Which of the error codes are fatal: the six below ERR_ISCONN |
| Netconn.Connection.Again | Gizwits_WIFI-Socket_SDK/Source/LwIP/src/api/api_msg.c:276-332 | Progress callbacks touch a request only while a write or close is pending |
| Netconn.Connection.DoListen | Gizwits_WIFI-Socket_SDK/Source/LwIP/src/api/api_msg.c:1063-1111 | Each listen request is answered once, in all of its failure cases |
| Netconn.SentGrows | Gizwits_WIFI-Socket_SDK/Source/LwIP/src/api/api_msg.c:1280-1291 | Accepted bytes continue the pending write in the stream although later requests may have been answered meanwhile |
| Netconn.Connection.ExactlyOnce | Gizwits_WIFI-Socket_SDK/Source/LwIP/src/api/api_msg.c:346-1482 | In every reachable state each request has been signalled exactly once, except the pending one, which exists exactly during a write, close or connect, and the connects that a delete overwrote, which never are; a blocking write that succeeded had all its bytes accepted |
| Netconn.DeleteWhileConnecting | Gizwits_WIFI-Socket_SDK/Source/LwIP/src/api/api_msg.c:831-868 | A concrete run after which two requests have been made, one signal has been given, nothing is pending, and the connect has no answer |
| Netconn.OneThread | Gizwits_WIFI-Socket_SDK/Source/LwIP/src/api/tcpip.c:306-322 | As long as one thread uses the connection, it can go on if and only if its own request has been answered |
| Netconn.WrongThreadWoken | Gizwits_WIFI-Socket_SDK/Source/LwIP/src/api/tcpip.c:306-322 | A concrete run with two threads in which the signal for a refused request can wake the thread whose request is still pending |
| Netconn.CutShortThenClose | Gizwits_WIFI-Socket_SDK/Source/LwIP/src/api/api_msg.c:1296-1303 | A concrete run in which the assertion that nothing is left of a write fails |
| DhcpServer.Server.Scan | Gizwits_WIFI-Socket_SDK/Source/App/DhcpServer/dhcp_server.c:226-272 | The entries that the search notes are the first ones of each kind, the client's own entry, and whether another client has the address |
| DhcpServer.Server.Lookup | Gizwits_WIFI-Socket_SDK/Source/App/DhcpServer/dhcp_server.c:204-437 | The table and the chosen entry are those of the priorities for each message type |
| DhcpServer.Server.CleanHistory | Gizwits_WIFI-Socket_SDK/Source/App/DhcpServer/dhcp_server.c:594-608 | Exactly the idle entries of the client forget it |
| DhcpServer.Server.Advance | Gizwits_WIFI-Socket_SDK/Source/App/DhcpServer/dhcp_server.c:610-649 | An entry is acknowledged exactly in the states and for the messages that call for it, and offered otherwise |
| DhcpServer.Server.Receive | Gizwits_WIFI-Socket_SDK/Source/App/DhcpServer/dhcp_server.c:669-724 | After any message the table is in order, entries of other clients are untouched, and the reply fits the table |
| DhcpServer.HandledKeepsTable | Gizwits_WIFI-Socket_SDK/Source/App/DhcpServer/dhcp_server.c:204-649 | No message gives a client a second entry, moves an entry in use to another client, or touches an entry that another client uses |
| DhcpServer.EveryEntryAfter | Gizwits_WIFI-Socket_SDK/Source/App/DhcpServer/dhcp_server.c:204-649 | The whole table after any message: the offered or acknowledged entry is the client's with its full timer, the one it had before is idle where the message gives it up and remembers the client only if its lease was in force, histories are deleted by an acknowledgement, and every other entry is as before |
| DhcpServer.RepliesToOwner | Gizwits_WIFI-Socket_SDK/Source/App/DhcpServer/dhcp_server.c:610-649 | An offered or acknowledged entry is the requester's only entry; after an acknowledgement no idle entry remembers a non-zero address of the client |
| DhcpServer.DiscoverIsOffered | Gizwits_WIFI-Socket_SDK/Source/App/DhcpServer/dhcp_server.c:274-330 | A discovery is refused if and only if nothing is idle and the client has no entry. Otherwise the idle address that is asked for is offered, if there is one; else the client's own entry; else the first idle one that remembers the client; else the first that nobody has had; else the first idle one |
| DhcpServer.RequestIsAcknowledged | Gizwits_WIFI-Socket_SDK/Source/App/DhcpServer/dhcp_server.c:332-391 | A request is acknowledged if and only if it is for this server, nobody else has the address, and it is idle or the client has an entry; what is acknowledged is the address asked for if and only if that is idle or the client's own, and the client's own otherwise |
| DhcpServer.ReleaseEndsLease | Gizwits_WIFI-Socket_SDK/Source/App/DhcpServer/dhcp_server.c:393-419 | After a release or refusal the client has no entry |
| DhcpServer.PoolIsDistinct | Gizwits_WIFI-Socket_SDK/Source/App/DhcpServer/dhcp_server.c:812-849 | The eight addresses of the pool differ if and only if there are nine hosts or more and the addresses behind the server's do not reach the last host part, or start anew at one |
| DhcpServer.PoolFollows | Gizwits_WIFI-Socket_SDK/Source/App/DhcpServer/dhcp_server.c:812-849 | The addresses are those behind the server's, one by one, or those of the first hosts for a server at the end of its subnet |
| DhcpServer.Server.NoAddressTwice | Gizwits_WIFI-Socket_SDK/Source/App/DhcpServer/dhcp_server.c:594-849 | In every reachable state of a server whose pool has room in that sense no address is in use by two clients |
| DhcpServer.TwoClientsOneAddress | Gizwits_WIFI-Socket_SDK/Source/App/DhcpServer/dhcp_server.c:812-849 | A concrete run of a server at 192.168.1.250 that offers 192.168.1.1 to two clients |
| DhcpServer.Server.Tick | Gizwits_WIFI-Socket_SDK/Source/App/DhcpServer/dhcp_server.c:106-147 | One second on all entries, keeping the table in order |
| DhcpServer.TickMeans | Gizwits_WIFI-Socket_SDK/Source/App/DhcpServer/dhcp_server.c:106-147 | What a second does to an entry, for a client that is present and one that is not |
| DhcpServer.TimesOut | Gizwits_WIFI-Socket_SDK/Source/App/DhcpServer/dhcp_server.c:117-141 | An offer stands for exactly ten ticks and a lease for exactly its length |
| DhcpServer.Server.Delete | Gizwits_WIFI-Socket_SDK/Source/App/DhcpServer/dhcp_server.c:743-779 | Only a lease in force is deleted; the result tells which case applied, and nothing else changes |
| DnsTable.TimesOut | Gizwits_WIFI-Socket_SDK/Source/LwIP/src/core/dns.c:642-710 | A query without response is asked for exactly seven ticks per configured server and then fails |
| DnsTable.SentOnSchedule | Gizwits_WIFI-Socket_SDK/Source/LwIP/src/core/dns.c:642-710 | A query without response goes to the first server at once and at ticks 1, 2 and 4, to the second one, if there is one, at ticks 8, 9 and 11, nowhere at any other tick, and fails seven ticks after the last server was chosen |
| DnsTable.Expires | Gizwits_WIFI-Socket_SDK/Source/LwIP/src/core/dns.c:699-708 | An answer is kept for its time to live, and 2^32 ticks if that is zero |
| DnsTable.Resolver.CheckEntry | Gizwits_WIFI-Socket_SDK/Source/LwIP/src/core/dns.c:634-716 | The slot, the queries sent and the callbacks change as the retry schedule says |
| DnsTable.Resolver.Tick | Gizwits_WIFI-Socket_SDK/Source/LwIP/src/core/dns.c:716-724 | All slots are checked once; the queries sent and the callbacks made are those of the slots, in their order |
| DnsTable.Resolver.Receive | Gizwits_WIFI-Socket_SDK/Source/LwIP/src/core/dns.c:765-842 | Only a waiting slot takes a response; its query gets its one callback, with the address or null, and the slot is free, or finished with that address and its time to live, which is limited to 604800 |
| DnsTable.Resolver.Choose | Gizwits_WIFI-Socket_SDK/Source/LwIP/src/core/dns.c:866-897 | The first unused slot, or else the oldest finished one in the counter's sense |
| DnsTable.Resolver.Enqueue | Gizwits_WIFI-Socket_SDK/Source/LwIP/src/core/dns.c:858-920 | A new query takes the first unused slot, or the oldest finished one, never one that another is using; it is refused if and only if no slot is unused, the first is not finished and none is older than the counter |
| DnsTable.OverwritesOldest | Gizwits_WIFI-Socket_SDK/Source/LwIP/src/core/dns.c:866-897 | When no slot is unused, the answer overwritten has the lowest number below that of the new query, or is in slot 0 if none is below |
| DnsTable.RefusedThoughFinished | Gizwits_WIFI-Socket_SDK/Source/LwIP/src/core/dns.c:866-897 | A concrete run in which a query is refused although three slots are finished: the first is pending, and the counter has wrapped |
| DnsTable.QueryEnds | Gizwits_WIFI-Socket_SDK/Source/LwIP/src/core/dns.c:676-684 | Ending a query calls its callback for the first and last time |
| DnsTable.Resolver.CalledOnce | Gizwits_WIFI-Socket_SDK/Source/LwIP/src/core/dns.c:642-909 | In every reachable state a query has been called back at most once, exactly once if it has a callback and is not pending, and the slot of a pending query is its own |
| TcpPort.OnLists | Gizwits_WIFI-Socket_SDK/Source/LwIP/src/core/tcp.c:656-666 | The port is on one of the lists |
| TcpPort.PortAllocator.NewPort | Gizwits_WIFI-Socket_SDK/Source/LwIP/src/core/tcp.c:645-668 | At most 16384 probes from any start; the next unused port of the range; zero if and only if all are in use |
| Base64Coder.Encode | Gizwits_WIFI-Socket_SDK/Source/App/GizWitsWifi/lib/base64.c:31-85 | Where the heap grants a block, the text and a terminator are stored from its start; every store is inside the block if and only if the computed size is at most 65532 |
| Base64Coder.EncodeOverrun | Gizwits_WIFI-Socket_SDK/Source/App/GizWitsWifi/lib/base64.c:40-48 | A concrete input of 49152 octets: the heap is asked for 915 bytes and 66448 are stored |
| Base64.LinesAreShort | Gizwits_WIFI-Socket_SDK/Source/App/GizWitsWifi/lib/base64.c:54-76 | Among any 73 characters in a row there is a line feed |
| Base64Laws.CharIsAlphabet | Gizwits_WIFI-Socket_SDK/Source/App/GizWitsWifi/lib/base64.c:17-18 | The encoder's table is the alphabet of RFC 1341, written out as a string |
| Base64Laws.QuadBits | Gizwits_WIFI-Socket_SDK/Source/App/GizWitsWifi/lib/base64.c:54-60 | The four characters of a group are those of the alphabet for the four values of six bits that its three octets are in base 64 |
| Base64Laws.LastQuadBits | Gizwits_WIFI-Socket_SDK/Source/App/GizWitsWifi/lib/base64.c:67-80 | The same for the last one or two octets, with zero bits and padding behind them |
| Base64Laws.TextAt | Gizwits_WIFI-Socket_SDK/Source/App/GizWitsWifi/lib/base64.c:50-80 | Where each character of the text comes from: group and position, with a line feed after each 72 characters |
| Base64Laws.TextLength | Gizwits_WIFI-Socket_SDK/Source/App/GizWitsWifi/lib/base64.c:50-85 | How long the text is |
| Base64Laws.ValueIs | Gizwits_WIFI-Socket_SDK/Source/App/GizWitsWifi/lib/base64.c:104-108 | The decoder's table: the place in the alphabet, zero for padding, and nothing for any other octet |
| Base64Laws.UniteBits | Gizwits_WIFI-Socket_SDK/Source/App/GizWitsWifi/lib/base64.c:134-140 | Three octets are the same number in base 256 as four values in base 64 |
| Base64Laws.DecodedIs | Gizwits_WIFI-Socket_SDK/Source/App/GizWitsWifi/lib/base64.c:99-151 | The decoding of any text: its characters in groups of four, each as three octets, less those that the padding takes off |
| Base64Coder.Decode | Gizwits_WIFI-Socket_SDK/Source/App/GizWitsWifi/lib/base64.c:99-151 | The result is that of the decoding; every store is inside the block if and only if at most 65532 characters count |
| Base64Coder.DecodeOverrun | Gizwits_WIFI-Socket_SDK/Source/App/GizWitsWifi/lib/base64.c:112-126 | A concrete text with 65540 characters that count: the heap is asked for four bytes and 49155 are stored |
| Base64.DecodedExists | Gizwits_WIFI-Socket_SDK/Source/App/GizWitsWifi/lib/base64.c:112-126 | There is a result if and only if the number of characters that count is a positive multiple of four |
| Base64.RoundTrip | Gizwits_WIFI-Socket_SDK/Source/App/GizWitsWifi/lib/base64.c:31-151 | Decoding the encoding of an input gives the input if and only if it is not empty |

## Left out

- LwipHeap.Heap.Free: the statistics, the debug output and the variants with pools or with freeing from other contexts are not modelled.
- LwipHeap.Heap.Trim: a moved free header may overlap the old one in memory; offsets and sizes are modelled, not the bytes of a header.
- DmemPool.Pool.constructor: what a pool that is too small for its two headers does later is not modelled (see HeadersFit), and neither is deleting a pool.
- DmemPool.Pool.GetMem: when the test for a split wraps, what the split destroys is not followed any further.
- PbufStore.Store.Ref: what happens after the counter has wrapped is not modelled.
- PbufStore.Store.AllocOne: ROM and REF buffers get their payload at once, which the code leaves to the caller.
- PbufHeap.Buffers.Free: only allocating and releasing are connected with the heap, not the trimming of a buffer in `pbuf_realloc`; the blocks are freed after the walk along the chain, the code frees each on the way.
- PbufStore.Store.Cat: the chains are named by their first buffers and are different, as the code expects. The same holds for Chain, and Realloc and Dechain are for first buffers too.
- PbufStore.Store.Realloc: the link to the rest is cleared before the rest is released; the code does it afterwards, which makes no difference because releasing does not look at that link.
- PbufCopy.CopyChain: which error is reported for queues of packets is not stated beyond the bytes copied.
- pbuf_header, custom buffers, pbuf_coalesce, and comparing and searching in chains.
- SelectWakeup.StepKeepsInv: the protocol is a state machine on values, so aliasing of list entries is not captured, and the wrap-around of the list counter and of `rcvevent` is not modelled.
- Recvfrom.Socket.Recv: peeking, UDP, sender addresses and the other socket calls are not modelled.
- Timers.TimeoutList.MboxFetch: the clock and the mailbox follow a script; the debug names of handlers and the timers of the protocols are left out.
- MboxClock.PortRunTruthful: time within a tick is not modelled.
- Memp.Pools.Free: the overflow checks around elements are not modelled.
- SlipInput.Receiver.Poll: the receive queue that is filled from an interrupt is not modelled.
- Netconn.Connection.DoConnect: connections that are set to non-blocking are not modelled; writes that must not block are.
- Netconn.Connection.DoClose: closing a listening connection does not fail, which `tcp_close` sees to; draining of mailboxes and the socket events are left out.
- DhcpServer.Server.Receive: parsing and building of messages is left out.
- DhcpServer.PoolIsDistinct: subnet masks whose bits are not contiguous are not modelled, nor a mask without host bits, for which the code divides by zero.
- DnsTable.Resolver.Receive: the bytes of messages and names are not modelled; a response is what the parser makes of it.
- TcpPort.PortAllocator.NewPort: the lists are given as the ports they hold.
- Base64Coder.Encode: shifts and masks are written as divisions and remainders; the overflow of `int` for inputs of 2^29 octets and more is not modelled, and neither is what stores outside the block destroy.
- Base64Coder.Decode: what stores outside the block destroy is not modelled.
- The DHCP client, ARP, IP, UDP and TCP themselves, PPP, SNMP, and the application code for the cloud, devices and flash: mostly input and output, or easy next to what is here.
