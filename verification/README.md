# Models of libevent's data structures and protocols

A Dafny model of the parts of libevent 2.1.8, as this repository carries it, where a simple
meaning hides behind a subtle implementation, with proofs that the implementation has that
meaning. `dafny verify dfyconfig.toml` checks everything.

* **Evbuffers** (`ChainView`, `Evbuffer`, `EvbufferRead`, `EvbufferSearch`, `EvbufferRuns`,
  `EvbufferGaps`). A buffer is a linked list of chains on the heap with a cached slot of the last
  chain with data; its meaning is one flat sequence of bytes. Every operation is proved to act on
  the bytes as append, prefix, drop, take, identity or concatenation and to repair the cached slot,
  the last chain and the total. `EvbufferRuns.Run` puts whole runs together.
* **Interest map, changelist and epoll** (`EpollTable`, `Evmap`). Counters per descriptor, a
  backend that tells the kernel at once and one that coalesces changes. What each leaves in the
  kernel is an exact function of the history: the kinds of the listed events, except on
  descriptors that were changed from outside and have not been asked for since.
* **The event base** (`EventLoop`, `EventPass`, `EventGaps`, `MinHeap`). Queues, flags, counters,
  sorted common-timeout lists served by one timer each, runs of the loop with persistent events,
  priorities and a clock that moves, and the binary heap of timeouts.
* **Rate limiting** (`RateLimit`, `RateLimitGroup`). Overflow-safe refill arithmetic, suspension,
  transfers and refill timers, and the group protocol with try-locks as steps of several threads
  in any order, the visits of a sweep being steps of their own.
* **DNS** (`DnsName`, `DnsRequests`). Names with compression (sections 3.1 and 4.1.4 of RFC 1035)
  and the table of inflight and waiting requests.
* **Tagged data and random numbers** (`Tagging`, `Arc4Random`).

The predicate `Valid` of each class is its invariant. Constructors establish it and every method
keeps it, except `Add` of the event base in the one case that it names, so it holds in every other
state that can be reached; the `Run` methods state this, and what follows from it, for whole
histories. System calls, locks held by other threads, clocks and
randomness are parameters: `memory` tells whether malloc succeeds during a call, `reliable`
whether the system behind an event base ever runs out of anything, `backend` whether the backend
accepts a registration, `tick` and `now` are clock readings.

Some promises turned out to hold only under a condition. The code is modelled as it is, and the
condition is proved to be exact:

* `evbuffer_remove_buffer`, when it has moved the whole chains and is about to add the rest, has
  left the cached slots right if and only if `Movable` holds; `evbuffer_prepend_buffer` can build a
  source for which it does not (`BuildGap`), and then the rest can come before bytes that it should
  follow (`Misplaced`). If its last
  allocation fails and the chain where the rest lands has no room, the bytes that were to be
  copied are lost (`RemovePart`, `LoseByte`).
* `evbuffer_strspn` leaves a wrong pointer if and only if the run reaches the end of a last chain
  with data (`Strspn`, `StrayPointer`); its only caller drops that pointer.
* `event_add` reserves room in the heap only for an event without a timeout, and ignores that a
  later entry fails. So an event that comes from a common-timeout list can succeed without being
  in the heap, or leave its new list without a timer; `Add` says exactly when (`LoseTimer`,
  `LoseTimeout`).
* The loop leaves nothing overdue, but it can leave a persistent event that is due at exactly now
  (`Loop`, `Pass`, `ComeRound`).
* `evbuffer_prepend` is not atomic: a failed allocation leaves behind exactly the bytes that
  fitted into the first chain.
* `evbuffer_search_range` returns its start for an empty pattern or one longer than a signed size.
* A token bucket above its maximum, which a negative charge can bring about, is not cut to the
  maximum by a refill (`RefillExact`, `OverfullExample`). It grows on and can turn negative, and
  then a direction is exhausted without being suspended; `UpdatedKeeps` says exactly when, and
  `Overturn` builds such a bufferevent.
* A bufferevent suspended for bandwidth is refilled unless event_add failed for its timer, which
  only bufferevent_decrement_read_buckets_ and its twin report (`Decrement`, `Stall`).
* A coalesced add and delete of kinds that were not registered asks the kernel for nothing
  (`AddThenDel`), so a registration changed from outside is made up for later than by the
  immediate backend: a descriptor counts as drifted if and only if it is `Stale`, and what the
  kernel has registered for it is exactly `Registered`.
* `event_tagging.c` writes the least significant nibble first, although its header comment speaks
  of a big-endian format. Reading a record that is cut short uses up the part of its header that
  could be read (`HeaderDrained`, `TornExample`).
* `dnsname_to_labels` writes its final zero without looking at the size of the buffer; the model
  gives the buffer one byte more than the size it is told, and `ToLabels` says exactly when that
  byte is used, for every name whose labels have at most 63 bytes (`PastTheEnd`).

## Model

| member | source | states |
|---|---|---|
| `EvbufferCore.Chain.Align` | core/src/main/jni/libevent/buffer.c:1902-1909 | moving the data to the front of the memory changes no byte of it and leaves no misalignment |
| `EvbufferCore.ChainNew` | core/src/main/jni/libevent/buffer.c:155-192 | a chain comes back exactly when the size is within the limit and malloc succeeds; it is empty, aligned and big enough |
| `EvbufferCore.Evbuffer.constructor` | core/src/main/jni/libevent/buffer.c:360-374 | a new buffer meets the invariant and holds no bytes |
| `EvbufferCore.Evbuffer.FreeTrailingEmptyChains` | core/src/main/jni/libevent/buffer.c:289-302 | exactly the chains behind the last one with data go, and the slot returned is the one at the new end |
| `EvbufferCore.Evbuffer.ChainInsert` | core/src/main/jni/libevent/buffer.c:307-326 | linking in a chain appends its bytes, drops the empty chains before it, and the cached slot again names the last chain with data |
| `EvbufferCore.Evbuffer.AddChainFor` | core/src/main/jni/libevent/buffer.c:1785-1808 | the data is split over the old chain and a new one, all of it or none, and the new chain is had exactly when memory and the size limit allow |
| `EvbufferCore.Evbuffer.Add` | core/src/main/jni/libevent/buffer.c:1722-1817 | the queue becomes old bytes + data on success and is untouched on failure; success exactly if the end is not frozen, the total does not overflow, and the bytes fit in place or a chain can be allocated |
| `EvbufferCore.Evbuffer.Prepend` | core/src/main/jni/libevent/buffer.c:1819-1899 | the queue becomes data + old bytes on success; on failure exactly the tail of the data that fitted in front of the first chain has been put there; success is characterised exactly |
| `EvbufferCore.Evbuffer.Drain` | core/src/main/jni/libevent/buffer.c:1095-1161 | the queue loses exactly its first len bytes, or all of them, unless it is frozen and not empty |
| `EvbufferCore.Evbuffer.CopyBytes` | core/src/main/jni/libevent/buffer.c:1224-1243 | the bytes copied out across any number of chains are the slice of the queue at the given place |
| `EvbufferCore.Evbuffer.CopyoutFrom` | core/src/main/jni/libevent/buffer.c:1184-1249 | all outcomes: overflow, nothing left, frozen, or the slice from the position, cut at the end of the queue |
| `EvbufferCore.Evbuffer.Remove` | core/src/main/jni/libevent/buffer.c:1164-1176 | old queue == bytes returned + new queue, with the length asked for or all there is; fails, changing nothing, exactly if frozen with bytes to take |
| `EvbufferCore.Evbuffer.AppendChain` | core/src/main/jni/libevent/buffer.c:883-900 | all chains of src are spliced behind the data; bytes concatenate and the invariant holds |
| `EvbufferCore.Evbuffer.AddBuffer` | core/src/main/jni/libevent/buffer.c:960-1004 | src is emptied into the end of dst, or nothing changes (same buffer, empty src, frozen); neither buffer keeps a chain of the other |
| `EvbufferCore.Evbuffer.PrependChain` | core/src/main/jni/libevent/buffer.c:942-958 | all chains of src are spliced in front; the cached slot moves by the right number of chains |
| `EvbufferCore.Evbuffer.PrependBuffer` | core/src/main/jni/libevent/buffer.c:1049-1093 | src is emptied into the front of dst, or nothing changes |
| `EvbufferCore.Evbuffer.CopyUp` | core/src/main/jni/libevent/buffer.c:1414-1433 | the loop of pullup copies exactly the leading bytes of the following chains and knows whether the last chain with data, or the chain its slot lies in, went with them |
| `EvbufferCore.Evbuffer.FinishPullup` | core/src/main/jni/libevent/buffer.c:1430-1447 | after the chains copied from are gone, list, last chain and cached slot are right in all cases and no byte has changed |
| `EvbufferCore.Evbuffer.Pullup` | core/src/main/jni/libevent/buffer.c:1344-1454 | no byte changes; the first n bytes lie together in the first chain and are returned, exactly if there are n and they fit the first chain or memory lasts |
| `EvbufferCore.Evbuffer.AdvanceLastWithData` | core/src/main/jni/libevent/buffer.c:702-716 | moves the slot to where a walk over the following chains with data ends |
| `EvbufferCore.Evbuffer.PassWhole` | core/src/main/jni/libevent/buffer.c:1287-1299 | finds how many chains are moved whole, their size, and what is left to copy |
| `EvbufferCore.Evbuffer.RemovePart` | core/src/main/jni/libevent/buffer.c:1287-1331 | bytes leave src and arrive at dst in order; the rest arrives if and only if the sizes fit and a chain can be had or the chain where it lands has room, a condition on the two lists before the call; if not, exactly the bytes of the whole chains have arrived |
| `EvbufferCore.Evbuffer.RemoveBuffer` | core/src/main/jni/libevent/buffer.c:1254-1342 | old src == moved + new src and new dst == old dst + moved, with the exact count returned, for every source whose layout is `Movable`; bytes are lost exactly under the condition of RemovePart |
| `ChainView.AdvanceFindsLast` | core/src/main/jni/libevent/buffer.c:702-716 | advance_last_with_data ends at the last chain with data if and only if no empty chain lies in between |
| `ChainView.MoveLayout` | core/src/main/jni/libevent/buffer.c:1301-1318 | splicing moved chains behind dst restores the invariant if and only if the move leaves no gap before data |
| `ChainView.MovableExact` | core/src/main/jni/libevent/buffer.c:1287-1318 | when the whole chains have been moved and before the rest is added, evbuffer_remove_buffer has left both cached slots right if and only if the layout is `Movable`, a condition on the two chain lists before the call |
| `ChainView.Misplaced` | core/src/main/jni/libevent/buffer.c:1301-1331 | what becomes of the rest when chains with data have moved out of an unmovable layout: the chain taken for the last one with data has bytes behind it, and the rest, stored at its end, comes before them |
| `ChainView.PackedMovable` | core/src/main/jni/libevent/buffer.c:1287-1318 | a source without empty chains before data is always movable |
| `ChainView.GapUnmovable` | core/src/main/jni/libevent/buffer.c:1287-1318 | a source with an empty chain, not the first, before a chain with data before the last one with data is unmovable when cut before that last one, whatever the destination |
| `ChainView.LandingIs` | core/src/main/jni/libevent/buffer.c:1287-1333 | the chain in which the rest of the bytes lands is the last one with data among those moved whole, or the one of dst if there is none |
| `EvbufferGaps.BuildGap` | core/src/main/jni/libevent/buffer.c:1049-1093 | a source that is unmovable for every destination, built from new buffers by add, expand_fast, add_buffer and prepend_buffer |
| `EvbufferGaps.LoseByte` | core/src/main/jni/libevent/buffer.c:1320-1331 | two buffers built by add, between which a byte is lost for lack of memory while the call reports it as moved |
| `EvbufferGaps.StrayPointer` | core/src/main/jni/libevent/buffer.c:1538-1574 | a buffer of one line end, built by add, for which evbuffer_strspn leaves a pointer whose place is not its offset |
| `ChainView.LastWithDataUnique` | core/src/main/jni/libevent/evbuffer-internal.h:86-102 | the cached slot has only one right value for a given list |
| `EvbufferRuns.Perform` | core/src/main/jni/libevent/buffer.c:960-1899 | any of the eight operations on two buffers does to their bytes what the plain byte operation does, whenever memory lasts and the sizes stay within the limit |
| `EvbufferRuns.AfterSize` | core/src/main/jni/libevent/buffer.c:960-1899 | over any run the two buffers never hold more bytes than were brought in |
| `EvbufferRuns.Run` | core/src/main/jni/libevent/buffer.c:960-1899 | over any run of add, prepend, drain, remove, pullup, add_buffer, prepend_buffer and remove_buffer, in any order, both buffers keep the chain invariant and hold exactly the bytes of the plain operations; with memory and bounded volume every call succeeds |
| `EvbufferReading.CountRoom` | core/src/main/jni/libevent/buffer.c:2060-2085 | the walk over the last chains finds enough room exactly as counted, realigning only empty chains |
| `EvbufferReading.ReplaceEmptyChains` | core/src/main/jni/libevent/buffer.c:2105-2146 | all empty chains make way for one that is big enough; bytes and invariant stay, also when the allocation fails |
| `EvbufferReading.ExpandFast` | core/src/main/jni/libevent/buffer.c:2039-2147 | contents never change; on success the next n chains with space offer datlen bytes; fails only without memory or beyond the size limit |
| `EvbufferReading.ReadSetupVecs` | core/src/main/jni/libevent/buffer.c:2213-2247 | at most n vectors, free space of consecutive chains, never past the end of the list, covering at least howmuch bytes and exactly howmuch if asked; -1 for a negative size |
| `EvbufferReading.Readv` | core/src/main/jni/libevent/buffer.c:2334-2334 | storing bytes through the vectors changes no byte of the queue and leaves them, in order, in the free space |
| `EvbufferReading.CommitRead` | core/src/main/jni/libevent/buffer.c:2366-2391 | the commit loop appends exactly the first n stored bytes and moves the cached slot to the chain that holds the last of them |
| `EvbufferReading.Read` | core/src/main/jni/libevent/buffer.c:2270-2399 | the queue grows by exactly the bytes delivered, or not at all; without a freeze and with memory the result is what readv answered |
| `EvbufferReading.ReadSize` | core/src/main/jni/libevent/buffer.c:2291-2295 | never more than the maximum, nor than a non-negative request |
| `ByteSearch.FindEol` | core/src/main/jni/libevent/buffer.c:1488-1513 | the scan in chunks of 128 bytes finds the first CR or LF, or tells that there is none |
| `EvbufferSearching.SetPtr` | core/src/main/jni/libevent/buffer.c:2609-2659 | the pointer lands on the byte at the target offset, at the end, or is marked as not found; overflow leaves it alone |
| `EvbufferSearching.SubtractPtr` | core/src/main/jni/libevent/buffer.c:2589-2607 | moves back exactly howfar bytes, across chains, exactly if there are as many |
| `EvbufferSearching.PtrEquals` | core/src/main/jni/libevent/buffer.c:2665-2699 | compares equal exactly if the pattern occurs at that offset of the flat bytes, however chains cut it |
| `EvbufferSearching.SearchRange` | core/src/main/jni/libevent/buffer.c:2707-2769 | the least offset at or after start where the pattern occurs and ends by `end`, or not found; the (chain, position) pair denotes the offset; an empty or oversized pattern returns the start |
| `EvbufferSearching.FindFirst` | core/src/main/jni/libevent/buffer.c:1466-1535 | the first byte from a position on that is a given byte or a line-end byte, over any chain layout |
| `EvbufferSearching.Strspn` | core/src/main/jni/libevent/buffer.c:1537-1574 | counts the run of CR and LF bytes at a position across chains and moves the position behind it; the new pair of chain and position denotes its offset if and only if the run ends before the end of the buffer or the last chain is empty |
| `EvbufferSearching.SearchEol` | core/src/main/jni/libevent/buffer.c:1589-1677 | for each of the five styles, the first terminator of that style and its length, as defined on the flat bytes |
| `EvbufferSearching.Readln` | core/src/main/jni/libevent/buffer.c:1679-1716 | old contents == line + first terminator + new contents; NULL exactly if frozen, out of memory, or without a terminator, and then nothing changes |
| `EpollTable.Index` | core/src/main/jni/libevent/epolltable-internal.h:124-130 | the index macro keeps the four fields apart |
| `EpollTable.TableRight` | core/src/main/jni/libevent/epolltable-internal.h:132-1164 | every reachable entry of the literal 512-entry table names NOOP, ADD, MOD or DEL as the old events demand, with exactly the wanted interest |
| `Evmap.AddToWanted` | core/src/main/jni/libevent/evmap.c:854-887 | adding kinds to an entry makes it ask for its old wish plus those kinds |
| `Evmap.DelFromWanted` | core/src/main/jni/libevent/evmap.c:889-939 | deleting kinds from an entry makes it ask for its old wish minus those kinds |
| `Evmap.AddThenDel` | core/src/main/jni/libevent/evmap.c:854-939 | an add and a delete coalesced before a dispatch ask the kernel for something if and only if one of the kinds was registered before |
| `Evmap.CountWithout` | core/src/main/jni/libevent/evmap.c:403-406 | unlisting an event lowers exactly the counts of its kinds |
| `Evmap.ActiveKinds` | core/src/main/jni/libevent/evmap.c:944-973 | the kinds with nonzero counters are those some listed event waits for |
| `Evmap.EventBase.Ctl` | core/src/main/jni/libevent/epoll.c:292-347 | the kernel side: ADD, MOD and DEL with their EEXIST and ENOENT answers |
| `Evmap.EventBase.ApplyOneChange` | core/src/main/jni/libevent/epoll.c:268-355 | after success the kernel has exactly the wanted interest, whatever was registered before, retrying MOD as ADD and ADD as MOD; other descriptors are untouched |
| `Evmap.EventBase.MakeSpace` | core/src/main/jni/libevent/evmap.c:203-225 | the table grows past the slot and no entry changes; the size stays in an int exactly if the slot is below 2^30 |
| `Evmap.RoomyEnough` | core/src/main/jni/libevent/evmap.c:206-211 | doubling from 32 or the present size passes the slot, and stays in an int exactly if the slot is below 2^30 |
| `Evmap.EventBase.GetOrConstruct` | core/src/main/jni/libevent/evmap.c:823-852 | the entry of the descriptor or a new one at the end, never a second one |
| `Evmap.EventBase.ChangelistAdd` | core/src/main/jni/libevent/evmap.c:854-887 | the entry asks for the old interest plus the kinds; failure changes nothing |
| `Evmap.EventBase.ChangelistDel` | core/src/main/jni/libevent/evmap.c:889-939 | the entry asks for the old interest minus the kinds; failure changes nothing |
| `Evmap.EventBase.NochangelistAdd` | core/src/main/jni/libevent/epoll.c:376-395 | the kernel has the old interest plus the kinds, or nothing changed |
| `Evmap.EventBase.NochangelistDel` | core/src/main/jni/libevent/epoll.c:397-413 | the kernel has the old interest minus the kinds, or nothing changed |
| `Evmap.EventBase.IoAdd` | core/src/main/jni/libevent/evmap.c:266-342 | the event is listed, counters equal the numbers of listed events and stay within 0xffff; a failed add changes nothing at all; 1 exactly if the set of kinds grew |
| `Evmap.EventBase.IoDel` | core/src/main/jni/libevent/evmap.c:347-409 | the event is unlisted and counted off; 1 exactly if the set of kinds shrank; a failed backend call is recorded as drift |
| `Evmap.EventBase.ApplyChanges` | core/src/main/jni/libevent/epoll.c:357-374 | one pass applies every entry once; the result tells whether any failed |
| `Evmap.EventBase.ChangelistRemoveAll` | core/src/main/jni/libevent/evmap.c:767-786 | no entry and no index is left |
| `Evmap.EventBase.Dispatch` | core/src/main/jni/libevent/epoll.c:459-460 | exactly which descriptors the kernel agrees on afterwards; all that did not drift have the kinds of their listed events |
| `Evmap.StartFollows` | core/src/main/jni/libevent/evmap.c:227-232 | a base that has just been made follows the empty history |
| `Evmap.MatchesNext` | core/src/main/jni/libevent/evmap.c:266-409 | one step of a history: what the kernel has registered, what the backend was told last and what the changelist holds are exact functions of the history, and a descriptor has drifted if and only if it is stale |
| `Evmap.AsksHeals` | core/src/main/jni/libevent/evmap.c:854-939 | whether the next dispatch puts a descriptor right can be read off the history: exactly if some kind touched since the last one is wanted now or was told to the kernel then |
| `Evmap.ReopenedInTime` | core/src/main/jni/libevent/evmap.c:266-409 | close, reopen, delete and add again before a dispatch leave the kernel right |
| `Evmap.SameKernels` | core/src/main/jni/libevent/epoll.c:357-413 | two kernels behind the two backends are the same if and only if the history registers the same with both for every descriptor |
| `Evmap.TakeStep` | core/src/main/jni/libevent/evmap.c:266-409 | one add, delete, dispatch or outside change keeps the exact relation between base and history |
| `Evmap.Run` | core/src/main/jni/libevent/evmap.c:266-409 | after any run a descriptor has drifted if and only if it is stale, and the kernel has exactly the kinds of the listed events on every other one; with a reliable system and bounded counts no call fails |
| `Evmap.RunBoth` | core/src/main/jni/libevent/epoll.c:357-413 | after a dispatch the coalescing backend has the same registrations as the immediate one if and only if the history registers the same with both, and always if no descriptor is stale |
| `TailQueue.RemovedIs` | core/src/main/jni/libevent/event.c:3172-3235 | removing from a queue keeps the others and makes no duplicates |
| `ActiveQueues.InsertedActive` | core/src/main/jni/libevent/event.c:3325-3344 | queues stay exactly what flags and priorities say when a callback is made active |
| `ActiveQueues.RemovedActive` | core/src/main/jni/libevent/event.c:3184-3199 | and when it is taken off |
| `EventLoop.Base.QueueInsertActive` | core/src/main/jni/libevent/event.c:3325-3344 | appends to the queue of its priority once, and counts it once |
| `EventLoop.Base.QueueInsertLater` | core/src/main/jni/libevent/event.c:3346-3361 | appends to the active-later queue unless already active or queued |
| `EventLoop.Base.QueueRemoveTimeout` | core/src/main/jni/libevent/event.c:3215-3235 | leaves the heap or its common list, which keeps its order |
| `EventLoop.Base.FindPlace` | core/src/main/jni/libevent/event.c:3279-3307 | the place that keeps a common-timeout list sorted, behind equal timeouts |
| `EventLoop.Base.QueueInsertTimeout` | core/src/main/jni/libevent/event.c:3363-3385 | enters its sorted place in the list, or the heap, which takes it if and only if it has room or memory |
| `EventLoop.Base.EventActive` | core/src/main/jni/libevent/event.c:2864-2979 | active exactly once and no longer active-later; joins the end of its queue if it was not active |
| `EventLoop.Base.Schedule` | core/src/main/jni/libevent/event.c:1406-1413 | the timer of a list is set for its head if and only if it is set already, the heap has room, or memory lasts; if not, the list is lost exactly if its timer is neither active nor running |
| `EventLoop.Base.ReserveFor` | core/src/main/jni/libevent/event.c:2578-2582 | room in the heap is asked for only if the event has no timeout yet |
| `EventLoop.Base.Add` | core/src/main/jni/libevent/event.c:2546-2716 | every outcome of event_add: when it fails nothing changes; when it succeeds exactly the flags, the due time, the list, the interval and the capacity it promises; no timeout is lost unless an event comes from a list without a reserved place in a full heap and memory fails, and then exactly the event itself (entering the heap) or the timer of its new list (coming first in it) is missing |
| `EventGaps.LoseTimer` | core/src/main/jni/libevent/event.c:2546-2716 | a base, built by event_add from an empty one, in which a successful event_add leaves a list without its timer |
| `EventGaps.LoseTimeout` | core/src/main/jni/libevent/event.c:2546-2716 | and one that leaves an event with a timeout that the heap does not hold |
| `EventLoop.Base.Del` | core/src/main/jni/libevent/event.c:2760-2844 | the event is on no queue, and no other list loses its timer |
| `EventLoop.Base.Activate` | core/src/main/jni/libevent/event.c:2864-2913 | activation by hand keeps every invariant of the base |
| `EventLoop.Base.ActivateLater` | core/src/main/jni/libevent/event.c:2923-2992 | and so does deferred activation |
| `EventLoop.Base.CommonTimeoutCallback` | core/src/main/jni/libevent/event.c:1418-1439 | activates exactly the expired prefix of the list, keeps the rest in order and reschedules its timer; the list is lost if and only if something is left in it, the heap is full, memory fails and nobody else has set the timer |
| `EventLoop.Base.TimeoutProcess` | core/src/main/jni/libevent/event.c:3125-3149 | activates exactly the events of the heap that are due, marks them as timed out, and takes only those off |
| `EventLoop.Base.StartCallback` | core/src/main/jni/libevent/event.c:1590-1631 | runs the first callback of the queue; persistent events lose only the active flag, others all flags |
| `EventLoop.Base.PersistReadd` | core/src/main/jni/libevent/event.c:1518-1581 | the next due time is one interval after the last one, or after now if it came by activity or is already past; the asserted agreement of interval and timeout holds; nothing is lost |
| `EventGaps.ComeRound` | core/src/main/jni/libevent/event.c:1518-1581 | a persistent event due one interval ago is entered again for exactly now |
| `EventLoop.Base.MakeLaterActive` | core/src/main/jni/libevent/event.c:3387-3400 | each priority queue gets its share of the active-later queue in order, which is left empty; counters stay right |
| `EventLoop.Base.NothingLeft` | core/src/main/jni/libevent/event.c:1935-1941 | the loop gives up exactly if there are no virtual events, no user event is on any queue and nothing is active; a virtual event that event_base_add_virtual_ counts keeps it from doing so |
| `EventLoop.Base.InitCommonTimeout` | core/src/main/jni/libevent/event.c:1443-1515 | the first list of that duration if there is one, else a new one exactly if there are fewer than 256 and memory lasts; the others stay |
| `EventPass.PassRuns` | core/src/main/jni/libevent/event.c:1590-1631 | when a callback starts, every due timeout is still accounted for |
| `EventPass.PassReadds` | core/src/main/jni/libevent/event.c:1518-1581 | and when a persistent event has been entered again, not before now |
| `EventPass.PassFires` | core/src/main/jni/libevent/event.c:1418-1439 | and when a list has fired |
| `EventPass.ReaddLess` | core/src/main/jni/libevent/event.c:1518-1581 | an event that was behind its time is so no longer when it is entered again, and one that was not is now later than now: it fires at most once more |
| `EventPass.PassEnd` | core/src/main/jni/libevent/event.c:3125-3149 | with nothing active, what still waits is later than now or was entered again at exactly now, and all that was due has run, except in lists that have lost their timer |
| `EventPass.Repeat` | core/src/main/jni/libevent/event.c:1518-1581 | event_persist_closure as a step of the pass |
| `EventPass.RunOne` | core/src/main/jni/libevent/event.c:1590-1706 | one callback runs, a persistent event being entered again first, and the pass comes closer to its end |
| `EventPass.Pass` | core/src/main/jni/libevent/event.c:1958-1961 | timeout_process and then event_process_active until nothing is active: the pass ends; every timeout due by now has run, whether in the heap or in a common list that has its timer; nothing ran that was neither active nor due; what is left is later than now, or a persistent event entered again at exactly now, or the timer of the list that such an event leads; with memory every persistent event that ran waits again and no list loses its timer |
| `EventPass.PassAgain` | core/src/main/jni/libevent/event.c:3125-3149 | what holds in the middle of a run still holds when the timeouts are looked at again at a later time |
| `EventPass.ProcessQueue` | core/src/main/jni/libevent/event.c:1590-1706 | the callbacks of one priority run until its queue is empty |
| `EventPass.ProcessActive` | core/src/main/jni/libevent/event.c:1714-1756 | the queues run in order up to the first in which a callback that is not internal has run, so all such callbacks of one turn have one priority |
| `EventPass.Loop` | core/src/main/jni/libevent/event.c:1905-1970 | any number of turns of the loop at any clock readings that do not go back, each with the callbacks of one priority: nothing runs that was neither active at the start nor due by the reading of its own turn; once nothing is active, all that was due by the last reading has run, whether in the heap or in a list that has its timer, and what is left is later or a persistent event entered again at exactly that time |
| `MinHeap.TopFirst` | core/src/main/jni/libevent/minheap-internal.h:69-69 | the top of the heap is due first |
| `MinHeap.StepUp` | core/src/main/jni/libevent/minheap-internal.h:161-171 | one step of shift_up moves the only violation of the heap order up |
| `MinHeap.StepDown` | core/src/main/jni/libevent/minheap-internal.h:173-186 | one step of shift_down moves it to the smaller child |
| `MinHeap.Replaced` | core/src/main/jni/libevent/minheap-internal.h:96-115 | an event that replaces another may have to go up or down, never both |
| `MinHeap.Timers.ShiftUp` | core/src/main/jni/libevent/minheap-internal.h:149-171 | heap order and all stored positions are right again, with the same members |
| `MinHeap.Timers.ShiftDown` | core/src/main/jni/libevent/minheap-internal.h:173-186 | heap order and all stored positions are right again, with the same members |
| `MinHeap.Timers.Reserve` | core/src/main/jni/libevent/minheap-internal.h:133-147 | room is made or nothing changes; no entry is lost, and the new capacity is the doubled one in 32 bits or what is wanted |
| `MinHeap.Timers.Push` | core/src/main/jni/libevent/minheap-internal.h:71-77 | the heap gains exactly the event, or nothing changes |
| `MinHeap.Timers.Erase` | core/src/main/jni/libevent/minheap-internal.h:96-115 | the heap loses exactly the event, wherever it was, or reports that it was not there |
| `MinHeap.Timers.Pop` | core/src/main/jni/libevent/minheap-internal.h:79-89 | an event that no other precedes leaves the heap, which keeps all the others |
| `MinHeap.Timers.Adjust` | core/src/main/jni/libevent/minheap-internal.h:117-131 | an event whose time alone has changed finds its place |
| `TokenBucket.RefillExact` | core/src/main/jni/libevent/bufferevent_ratelim.c:73-111 | the divide-first refill in wrapping 64-bit arithmetic equals min(maximum, limit + ticks * rate) if and only if the limit is at most the maximum or the wrapped gap is used up |
| `TokenBucket.RefillMeans` | core/src/main/jni/libevent/bufferevent_ratelim.c:73-111 | what the wrapping 64-bit computation comes to for every limit, also above the maximum: cut to the maximum, grown, or turned negative |
| `TokenBucket.UpdatedKeeps` | core/src/main/jni/libevent/bufferevent_ratelim.c:73-111 | an update makes a positive limit not positive, or a limit that is not negative negative, if and only if it was above the maximum and the sum passes the largest signed size without passing 2^64 |
| `TokenBucket.RefillTwice` | core/src/main/jni/libevent/bufferevent_ratelim.c:73-111 | two refills make one of the total time |
| `TokenBucket.OverfullExample` | core/src/main/jni/libevent/bufferevent_ratelim.c:73-111 | a bucket above its maximum keeps growing |
| `TokenBucket.ChargeBound` | core/src/main/jni/libevent/bufferevent_ratelim.c:272-346 | if no charge exceeds the limit, what is charged in any run is at most the starting limit, also a negative one, plus rate times the time gone by |
| `TokenBucket.Update` | core/src/main/jni/libevent/bufferevent_ratelim.c:73-111 | both directions become what RefillMeans says, or nothing happens for a clock that did not move or moved back |
| `TokenBucket.UpdatedOk` | core/src/main/jni/libevent/bufferevent_ratelim.c:73-111 | an update keeps limits in range, and keeps one that is within its maximum there without lowering it |
| `TokenBucket.Init` | core/src/main/jni/libevent/bufferevent_ratelim.c:49-71 | a new bucket starts at the rate; one configured again is cut to the new maximum |
| `RateLimitedBev.Bufferevent.Enable` | core/src/main/jni/libevent/bufferevent.c:459-480 | transfers run exactly where enabled and not suspended, unless the backend could not start them; success means they run or are suspended |
| `RateLimitedBev.Bufferevent.Suspend` | core/src/main/jni/libevent/bufferevent.c:66-100 | adds one reason and stops the transfers of that direction; they run exactly where enabled and without any reason left |
| `RateLimitedBev.Bufferevent.Unsuspend` | core/src/main/jni/libevent/bufferevent.c:78-112 | takes away one reason; transfers run exactly where enabled and without any reason left, unless the backend could not start them; the other direction stays |
| `RateLimitedBev.Bufferevent.SetRateLimit` | core/src/main/jni/libevent/bufferevent_ratelim.c:559-636 | suspended for bandwidth exactly where the limit is not positive, with the timer set exactly if something is suspended and event_add succeeds; other reasons stay |
| `RateLimitedBev.Bufferevent.UpdateBuckets` | core/src/main/jni/libevent/bufferevent_ratelim.c:113-124 | both limits become what RefillMeans says; no direction is exhausted without being suspended afterwards if and only if no unsuspended one turns over |
| `RateLimitedBev.Bufferevent.Decrement` | core/src/main/jni/libevent/bufferevent_ratelim.c:272-346 | for every charge that does not overflow the limit, of either sign and also above the maximum: suspended for bandwidth exactly if the new limit is not positive; -1 exactly if the timer was then needed, was not pending and could not be set, and else the refill is coming |
| `RateLimitedBev.Bufferevent.RefillCallback` | core/src/main/jni/libevent/bufferevent_ratelim.c:393-439 | takes back exactly the suspensions whose limit is positive again and sets the timer again exactly if one is left and event_add succeeds; no direction is exhausted without being suspended if and only if no unsuspended one turns over |
| `RateLimitedBev.RefillUntilClear` | core/src/main/jni/libevent/bufferevent_ratelim.c:393-439 | no refill is lost while the timer can be set: without new charges a bounded number of refills, however late, ends every suspension for bandwidth |
| `RateLimitedBev.Stall` | core/src/main/jni/libevent/bufferevent_ratelim.c:272-346 | a bufferevent that is suspended with no refill to come, after a charge during which the timer could not be set |
| `RateLimitedBev.Overturn` | core/src/main/jni/libevent/bufferevent_ratelim.c:73-111 | a bufferevent, built by bufferevent_set_rate_limit and one charge of -1, whose limit one tick makes negative without suspending it |
| `RateLimitGroup.Group.SetMinShare` | core/src/main/jni/libevent/bufferevent_ratelim.c:703-722 | the share in use is the configured one cut to both rates |
| `RateLimitGroup.Group.StartCharge` | core/src/main/jni/libevent/bufferevent_ratelim.c:295-305 | for every charge that does not overflow the limit: the group is suspended exactly if its limit is not positive, and the members are to be suspended or unsuspended accordingly |
| `RateLimitGroup.Group.SuspendOne` | core/src/main/jni/libevent/bufferevent_ratelim.c:360-366 | one member is flagged exactly if its lock can be had at that moment |
| `RateLimitGroup.Group.FinishSuspend` | core/src/main/jni/libevent/bufferevent_ratelim.c:347-389 | with no other thread in between, exactly the members whose lock can be had are flagged |
| `RateLimitGroup.RotatedOnce` | core/src/main/jni/libevent/bufferevent_ratelim.c:445-485 | a sweep from any random start gives every member exactly one turn |
| `RateLimitGroup.Group.StartSweep` | core/src/main/jni/libevent/bufferevent_ratelim.c:487-493 | the group is no longer suspended; whoever is still flagged has yet to be visited |
| `RateLimitGroup.Group.VisitOne` | core/src/main/jni/libevent/bufferevent_ratelim.c:494-501 | one member is freed if its lock can be had at that moment; if not, the sweep will leave an unsuspension pending |
| `RateLimitGroup.Group.EndSweep` | core/src/main/jni/libevent/bufferevent_ratelim.c:502-502 | pending exactly if a member was busy at its turn, whatever other threads did in between; if not, no member is flagged |
| `RateLimitGroup.Group.FinishSweep` | core/src/main/jni/libevent/bufferevent_ratelim.c:487-523 | with no other thread in between, exactly the members whose lock can be had are freed, and pending is set exactly if one was busy |
| `RateLimitGroup.Group.JoinStart` | core/src/main/jni/libevent/bufferevent_ratelim.c:763-771 | the member is on the list and counted before it is flagged |
| `RateLimitGroup.Group.JoinEnd` | core/src/main/jni/libevent/bufferevent_ratelim.c:773-776 | a member that joins a suspended group is suspended too |
| `RateLimitGroup.Group.LeaveStart` | core/src/main/jni/libevent/bufferevent_ratelim.c:795-803 | off the list and counted off |
| `RateLimitGroup.Group.LeaveEnd` | core/src/main/jni/libevent/bufferevent_ratelim.c:804-807 | a member that left carries no group flag, unless it is being destroyed |
| `RateLimitGroup.Group.GetRlimMax` | core/src/main/jni/libevent/bufferevent_ratelim.c:197-258 | the share division is defined; all shares together fit the bucket unless the minimum share applies; nothing while suspended |
| `RateLimitGroup.Group.SetCfg` | core/src/main/jni/libevent/bufferevent_ratelim.c:672-701 | both limits are cut to the new maximum, and the share to the new rates |
| `RateLimitGroup.Group.StartRefill` | core/src/main/jni/libevent/bufferevent_ratelim.c:528-540 | both limits become what RefillMeans says; no direction is overdrawn without being suspended afterwards if and only if no unsuspended one turns over |
| `RateLimitGroup.Group.NextDirection` | core/src/main/jni/libevent/bufferevent_ratelim.c:541-555 | a direction is swept exactly if its unsuspension is pending or it has reached the minimum share |
| `RateLimitGroup.Group.Continue` | core/src/main/jni/libevent/bufferevent_ratelim.c:347-557 | whatever the thread with the lock of the group does next, nobody is forgotten |
| `RateLimitGroup.Run` | core/src/main/jni/libevent/bufferevent_ratelim.c:347-557 | after any sequence of steps of any threads, with other threads between any two visits of a sweep, a flagged member is a member of a suspended group, or has an unsuspension pending, or a sweep that has yet to visit it or will set pending; if no charge is negative, no direction is ever overdrawn without being suspended, nor above its maximum |
| `RateLimitGroup.Take` | core/src/main/jni/libevent/bufferevent_ratelim.c:347-557 | one step of one thread keeps the invariant; an overdrawn direction stays suspended unless the step is a refill in which an unsuspended one turns over |
| `RateLimitGroup.Group.RefillCallback` | core/src/main/jni/libevent/bufferevent_ratelim.c:528-557 | unsuspends exactly the directions that reached the minimum share; busy members keep the unsuspend pending |
| `RateLimitGroup.RefillUntilOpen` | core/src/main/jni/libevent/bufferevent_ratelim.c:528-557 | with no member busy and no new charges, a bounded number of refills frees every member |
| `DnsName.MoreJumps` | core/src/main/jni/libevent/evdns.c:959-1013 | the jumps a name needs do not depend on how many are allowed |
| `DnsName.EnoughJumps` | core/src/main/jni/libevent/evdns.c:959-1013 | a name that can be read with any number of jumps can be read with as many as the packet has bytes, so the bound loses no name |
| `DnsName.NameParse` | core/src/main/jni/libevent/evdns.c:959-1013 | terminates on every packet, cyclic pointers included; succeeds exactly if the name decodes and its text fits; then text, final NUL and the index past the name (or past its first pointer) are right |
| `DnsName.CopyLabel` | core/src/main/jni/libevent/evdns.c:994-1002 | the name so far becomes itself, a dot and the label, exactly if the label ends inside the packet and the name still fits |
| `DnsLabels.DottedSplit` | core/src/main/jni/libevent/evdns.c:1599-1663 | splitting a name at its dots and joining it again gives it back |
| `DnsLabels.LastLabel` | core/src/main/jni/libevent/evdns.c:1655-1658 | the last label is empty exactly if the name is empty or ends in a dot, and else ends in the last byte of the name: what the test for a final zero looks at |
| `DnsLabels.LabelTable.GetPos` | core/src/main/jni/libevent/evdns.c:1559-1568 | finds an entry of the name exactly if there is one |
| `DnsLabels.LabelTable.Add` | core/src/main/jni/libevent/evdns.c:1571-1586 | adds at the end exactly if there is room and memory |
| `DnsLabels.SpellsDecode` | core/src/main/jni/libevent/evdns.c:959-1013 | what the encoder writes, with pointers strictly backwards, is what the parser reads |
| `DnsLabels.SpellsGrow` | core/src/main/jni/libevent/evdns.c:1599-1663 | names stay readable while the message grows |
| `DnsLabels.WriteLabels` | core/src/main/jni/libevent/evdns.c:1624-1654 | after any number of labels the message holds their coding and the table an entry for each suffix |
| `DnsLabels.ToLabels` | core/src/main/jni/libevent/evdns.c:1599-1663 | behind the message a name of labels of 1 to 63 bytes is spelled up to the result and every table entry leads to its name; for every table and every name of at most 255 bytes with labels of at most 63, empty ones included, the exact result; the byte past the buffer is written if and only if the buffer ends where the plain coding would, no suffix of the name at a label boundary is known, and the name does not end in a dot; a known name takes two bytes, and a name written is known |
| `DnsLabels.PastTheEnd` | core/src/main/jni/libevent/evdns.c:1599-1663 | a name and an empty table for which that byte is written |
| `DnsLabels.ParsesBack` | core/src/main/jni/libevent/evdns.c:959-1013 | a name that is spelled in a message parses back to itself |
| `DnsLabels.WriteMessage` | core/src/main/jni/libevent/evdns.c:1910-1965 | names and other bytes written one after another with a shared table all read back in a message of up to 16384 bytes; with room for the plain coding it always fits |
| `RequestRing.Insert` | core/src/main/jni/libevent/evdns.c:2720-2734 | on the doubly linked ring, appends |
| `RequestRing.Remove` | core/src/main/jni/libevent/evdns.c:2682-2717 | on the doubly linked ring, removes exactly the request and moves the head if it was first |
| `DnsRequests.Base.PickServer` | core/src/main/jni/libevent/evdns.c:1334-1367 | none exactly if there are no servers; else the first one round the ring that is up, or just the next if none is; the ring turns past it |
| `DnsRequests.Base.Find` | core/src/main/jni/libevent/evdns.c:468-483 | finds an inflight request with the id exactly if there is one |
| `DnsRequests.Base.Submit` | core/src/main/jni/libevent/evdns.c:2823-2841 | in a bucket if it has a server, at the end of the waiting queue if not |
| `DnsRequests.Base.Pump` | core/src/main/jni/libevent/evdns.c:742-770 | requests leave the waiting queue in order until it is empty or enough are inflight; the others stay as they are |
| `DnsRequests.Base.Finish` | core/src/main/jni/libevent/evdns.c:648-706 | exactly this request goes, and free places are filled from the waiting queue in order |
| `DnsRequests.Base.SwapServer` | core/src/main/jni/libevent/evdns.c:544-553 | only the server of the request and two counters change |
| `DnsRequests.Base.NameserverFailed` | core/src/main/jni/libevent/evdns.c:557-615 | a server that was up no longer is, and if another one is left, exactly its requests that have not been sent are with servers that are up; no other request changes, and all counters are right |
| `DnsRequests.Base.NameserverUp` | core/src/main/jni/libevent/evdns.c:617-638 | the server is up and counted once, and its probe is cancelled exactly if it was down; requests that were inflight stay as they are |
| `DnsRequests.Base.SetMaxInflight` | core/src/main/jni/libevent/evdns.c:3385-3414 | every inflight request is found in its new bucket |
| `DnsRequests.Conservation` | core/src/main/jni/libevent/evdns.c:648-770 | in every valid state the inflight counter, the bucket lengths together, the server counters together and the number of requests with a server agree; with the waiting ones they are all requests |
| `TagFormat.TagRoundTrip` | core/src/main/jni/libevent/event_tagging.c:168-242 | any 32-bit tag is read back from its coding with its length, at most five bytes |
| `TagFormat.IntRoundTrip` | core/src/main/jni/libevent/event_tagging.c:315-373 | any number within the nibble limit is read back with the length it was written with |
| `TagFormat.EncodeInt` | core/src/main/jni/libevent/event_tagging.c:117-150 | the nibbles, least significant first, are written in place into the 5- or 9-byte array |
| `TagFormat.HeaderRoundTrip` | core/src/main/jni/libevent/event_tagging.c:435-451 | header and payload length of a record are read back, and what follows is the payload |
| `TagFormat.HeaderDrained` | core/src/main/jni/libevent/event_tagging.c:437-451 | reading a header uses up nothing if and only if there is no tag, and the whole header if there is one |
| `TagFormat.TornExample` | core/src/main/jni/libevent/event_tagging.c:437-451 | a record torn off behind its tag, which loses the tag |
| `Tagging.EncodeTag` | core/src/main/jni/libevent/event_tagging.c:173-194 | appends exactly the coding of the tag |
| `Tagging.DecodeTag` | core/src/main/jni/libevent/event_tagging.c:196-242 | the tag at the front or -1; drained only if asked |
| `Tagging.DecodeInt` | core/src/main/jni/libevent/event_tagging.c:315-360 | the number at the offset with its length, or -1, for every content |
| `Tagging.DecodeIntFrom` | core/src/main/jni/libevent/event_tagging.c:375-393 | drains exactly the coding that was read |
| `Tagging.IntThereAndBack` | core/src/main/jni/libevent/event_tagging.c:117-166 | a number written in front of any bytes is read back and leaves them |
| `Tagging.Marshal` | core/src/main/jni/libevent/event_tagging.c:256-273 | appends exactly the record |
| `Tagging.UnmarshalHeader` | core/src/main/jni/libevent/event_tagging.c:437-451 | tag and payload length, leaving the payload; in every outcome exactly what has been drained: nothing without a tag, the tag if no length follows |
| `Tagging.PeekLength` | core/src/main/jni/libevent/event_tagging.c:401-417 | the full size of the record at the front, and nothing changes |
| `Tagging.Unmarshal` | core/src/main/jni/libevent/event_tagging.c:466-480 | moves exactly the payload, or fails and moves nothing, with exactly the header or the part of it that could be read gone |
| `Tagging.MarshalAll` | core/src/main/jni/libevent/event_tagging.c:256-263 | writes the records one after another |
| `Tagging.UnmarshalAll` | core/src/main/jni/libevent/event_tagging.c:395-480 | any list of records is read back exactly from its marshalled form, with the right size peeked for each, and the buffer is empty |
| `Tagging.UnmarshalInt` | core/src/main/jni/libevent/event_tagging.c:484-534 | every outcome, and exactly what is drained in each: wrong tag, short payload, bad number, or the number with its length |
| `Tagging.IntRecordThereAndBack` | core/src/main/jni/libevent/event_tagging.c:276-297 | an integer record written in front of any bytes is read back and leaves them |
| `Arc4Random.Everything` | core/src/main/jni/libevent/arc4random.c:96-105 | a permutation of 256 places holds every byte value |
| `Arc4Random.SwappedPermutation` | core/src/main/jni/libevent/arc4random.c:115-119 | a swap keeps the permutation and undoes itself |
| `Arc4Random.Stream.constructor` | core/src/main/jni/libevent/arc4random.c:96-105 | starts as the identity permutation |
| `Arc4Random.Stream.AddRandom` | core/src/main/jni/libevent/arc4random.c:107-122 | the state stays a permutation and is the old one mixed 256 times with the data |
| `Arc4Random.Stream.GetByte` | core/src/main/jni/libevent/arc4random.c:425-437 | the state stays a permutation; one swap, one byte of output |
| `Arc4Random.StepInjective` | core/src/main/jni/libevent/arc4random.c:425-437 | two states that step to the same state are the same: no state is lost |
| `Arc4Random.RejectExact` | core/src/main/jni/libevent/arc4random.c:530-540 | the 32-bit computation of the rejection bound is 2^32 mod bound |
| `Arc4Random.Uniformity` | core/src/main/jni/libevent/arc4random.c:548-554 | every result below the bound has exactly floor(2^32 / bound) accepted words |
| `Arc4Random.Uniform` | core/src/main/jni/libevent/arc4random.c:522-555 | the first accepted word decides; words below the rejection bound are skipped |

## Left out

- Chains that refer to foreign memory, files or other buffers, pinned chains, and callbacks of buffers.
- evbuffer_expand_singlechain, evbuffer_reserve_space and evbuffer_commit_space; the short path of the last does not repair the cached slot when an empty chain lies before the extent.
- Edge-triggered events and signals.
- EventBase.MakeSpace: takes the table size as an integer, because the contract already says for which slots it no longer fits an int; what the doubled int does then is not followed.
- Evbuffer.RemovePart: asks for a `Movable` layout, because in any other the invariant that evbuffer_add needs is gone when it is called; MovableExact and Misplaced say what happens instead.
- Evbuffer.RemoveBuffer: the same.
- EventBase.Ctl: EBADF and EPERM are answered only for descriptors that are not registered, because a closed descriptor has lost its registration.
- Base.StartCallback: user callbacks run between StartCallback and FinishCallback as further calls; event_base_loopbreak, event_base_loopcontinue, priority limits and finalizers are not modelled.
- Pass: user callbacks leave the base alone, intervals of persistent events are not negative, and all priorities are drained at one clock reading; Loop takes a reading for each turn and one priority at a time.
- Loop: user callbacks leave the base alone, nothing but timeouts becomes active between turns, and intervals of persistent events are not negative.
- Base.Add: what later calls do to an event that has a timeout but no place in the heap is not followed, because its position field then holds no heap index.
- The event base uses the heap of timeouts as a set from which the earliest is taken; MinHeap proves that the array behaves so. The index of a common-timeout list is a field, not bits of the microseconds.
- Bufferevents other than their suspension flags, transfers and rate limits: sockets, filters, pairs, TLS, watermarks and timeouts.
- RefillUntilClear: asks for limits within their maximum, because a limit above it can turn over and need any number of refills; RefillUntilOpen does the same for a group.
- Failure of event_add for the refill timer of a group, which is persistent and set once.
- Base.Promote: any transaction id below 0xffff may be picked; ids are not claimed to be unique, because a search builds its next request before the old one is finished.
- Base.NameserverFailed: the number of transmissions of a request is not kept; which requests have not been sent is a parameter.
- Base of DnsRequests keeps its rings as sequences; RequestRing proves that the pointer operations append and remove.
- WriteMessage: the length of a name record, which the code fills in after the name, is among the bytes known beforehand.
- Sockets, timeouts, probing, retransmission, resolv.conf, hosts files and answers of evdns.
- Tagged strings, times and fixed-size records, which only wrap the operations modelled here; allocation failure of the buffers under them.
- Seeding of arc4random from the operating system.
- The Android application, its build scripts, libancillary and the native launcher, which hold no comparable logic.
