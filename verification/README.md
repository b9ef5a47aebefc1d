# Verified models of libev and pdnsd

This project models the two C libraries that the repository bundles: libev, an event loop, and pdnsd,
a caching DNS proxy. It proves what their hardest parts promise. Each module follows one part of the
source; names of members are those of the source's functions where there is one.

| module | part |
|---|---|
| `Names` | domain names in length-byte notation and the primitives on them |
| `Decompress`, `Compress`, `RoundTrip` | name compression of section 4.1.4 of RFC 1035, and its inverse |
| `Wakeup` | libev's cross-thread wake-up, as interleaved atomic steps of any number of senders and a loop |
| `RwLock` | pdnsd's reader/writer lock, as interleaved critical sections of any number of threads |
| `Heap`, `Pending`, `Dispatch`, `Timers`, `Expiry` | libev's 4-ary heap, the queues of pending events, their invocation, the timers that use heap and queues, and what becomes of timers that are due |
| `Backends`, `FdLayer` | the poll and select interest sets, and libev's batching of descriptor changes |
| `AgeList` | pdnsd's doubly linked list of RR sets by age, and its merge sort |
| `HashTable` | pdnsd's hash table of names |
| `CacheStore`, `Cache`, `AgeIndex` | pdnsd's cache: accounting, merging, purging; its list by age as linked nodes |
| `QuerySm` | pdnsd's outgoing queries: retries and resources |
| `Resolver` | the mutual recursion of pdnsd's resolver |
| `DiskFormat` | pdnsd's cache file |

How things are modelled:

- Both protocols are transition systems under sequential consistency; the results are about every state
  of every run, with any number of threads.
- Objects that the source updates in place are classes (watchers, heap arrays, queues, list entries, the
  loop, the cache, a query). What an invariant says about them is stated on values (sequences, maps) and
  kept by lemmas; the methods are proved against these.
- System calls, servers and the contents of the cache that a resolver sees are chosen freely, so results
  hold for every behaviour of the environment. The current time is a parameter.
- Times in libev are reals. Sizes in pdnsd are those of a 32-bit machine (hash words and times on disk
  are 32-bit words, an unsigned long has four bytes).
- A heap that is a heap but for one element is described by `HeapBut`; the root is its own parent, as C's
  truncating division makes it.

Where the code does less than one might expect of it, the exact condition is proved, and a concrete input
is given where the property fails:

- A set survives the cache file just if it has at most 255 records, all different, and in a local entry
  just if it has none (`DiskFormat.BackExact`, `DiskFormat.SetReadExact`, `DiskFormat.LosesRecords`).
- A local negative entry, unlike a local set, can lose its negation to data that is not local
  (`CacheStore.LocalNegationKept`, `Cache.Cache.AddCache`, `Cache.LosesLocalNegation`).
- Merging can leave an entry with nothing in it, which purging cannot find; `CacheStore.LeftEmpty` says when.
- A server can be asked again although a query to it has come to an end, exactly if that was after the answer
  that names it (`Resolver.AskedAgain`, `Resolver.AskedTwice`).
- `realloc_or_cleanup` frees its argument for a second time if `realloc` to a size of zero has freed it,
  which the C standard leaves open; that is so if the length of an answer by TCP is zero and there is a
  buffer from a request that is being repeated (`QuerySm.Query.ExecQuery`, `QuerySm.ZeroLengthFreesTwice`).

The fourth comparison on the slow path of `downheap` can never apply, because there are at most three
children there, and is omitted.

## Model

| member | source | states |
|---|---|---|
| Names.Rhnlen | ndk/src/main/jni/pdnsd/src/helpers.h:62-69 | The result is the exact size of the encoded name at the start of the buffer, whatever follows it; nothing outside the name is read. |
| Names.Rhnsegcnt | ndk/src/main/jni/pdnsd/src/helpers.h:100-110 | The result is the number of labels of the name. |
| Names.Skipsegs | ndk/src/main/jni/pdnsd/src/helpers.h:74-81 | What follows the position returned is the encoding of the name without its first k labels, or the root if it has fewer. |
| Names.SameBytes | ndk/src/main/jni/pdnsd/src/helpers.h:217-220 | A run of bytes is reported equal just if the two runs have the same lower-case form. |
| Names.SameLabelAt | ndk/src/main/jni/pdnsd/src/helpers.h:211-221 | One turn of the comparison: equal just if both names end here or the next labels are equal up to case. |
| Names.Rhnicmp | ndk/src/main/jni/pdnsd/src/helpers.h:206-224 | The comparison succeeds just if the two names have the same number of labels and each pair is equal up to ASCII case. |
| Names.FoldWire | ndk/src/main/jni/pdnsd/src/helpers.h:200-203 | Comparing encodings byte by byte in lower case is the same as comparing names: a length byte is never taken for a letter. |
| Names.WirePrefixFree | ndk/src/main/jni/pdnsd/src/helpers.h:56-69 | No encoding is a prefix of another, so a buffer holds at most one name at a place. |
| Decompress.DecompressName | ndk/src/main/jni/pdnsd/src/dns.c:44-156 | For any bytes: it ends, reads only inside the message, writes at most 256 bytes of the target, and returns what the reference reader Decode returns (error, or name with its length and the encoded size consumed). |
| Decompress.FollowPointers | ndk/src/main/jni/pdnsd/src/dns.c:94-125 | After the first pointer: the rest of the name is what chasing pointers with at most 255 hops gives, or an error. |
| Decompress.CopyBytes | ndk/src/main/jni/pdnsd/src/dns.c:86-90 | Copies one label and leaves the rest of the target as it was. |
| Decompress.DecodeExact | ndk/src/main/jni/pdnsd/src/dns.c:44-156 | A result is accepted if and only if the message spells the name at that place (labels and pointers, section 4.1.4 of RFC 1035) with at most 255 hops, it fits in 256 bytes, and the inline part fits in the bytes left; the result is then that name with labels of 1 to 63 bytes, and the size consumed is the size of the inline part. |
| Decompress.TruncExact | ndk/src/main/jni/pdnsd/src/dns.c:44-156 | RC_TRUNC is returned exactly if the data field is empty or cuts the name off: after some of its labels, which stand in the message and fit the buffer, comes a pointer or a label that with its second byte, or the byte after it, goes beyond the field. Every other failure is RC_FORMAT. |
| Decompress.SpellsUnique | ndk/src/main/jni/pdnsd/src/dns.c:44-156 | A message spells at most one name at a place. |
| Decompress.SelfPointerSpellsNothing | ndk/src/main/jni/pdnsd/src/dns.c:99-110 | A pointer to itself spells no name, so it is never accepted. |
| Compress.DomainMatch | ndk/src/main/jni/pdnsd/src/dns.c:204-238 | Returns the largest number of labels at the end that the two names share up to case, and where this common part starts in each of them. |
| Compress.CollectLengths | ndk/src/main/jni/pdnsd/src/dns.c:209-222 | The array collected holds the length of every label, the index ends at the final zero. |
| Compress.StepBack | ndk/src/main/jni/pdnsd/src/dns.c:226-232 | One turn of the loop: the two labels before the current positions are compared and stepped over just if they are equal up to case. |
| Compress.SameBytesBackwards | ndk/src/main/jni/pdnsd/src/dns.c:229-230 | Comparing backwards reports equality just if the two runs are equal up to case. |
| Compress.MatchCountLongest | ndk/src/main/jni/pdnsd/src/dns.c:199-204 | The number found is that of a common suffix, and no longer common suffix exists. |
| Compress.FindMatch | ndk/src/main/jni/pdnsd/src/dns.c:258-277 | The loop over the list chooses what the reference choice Choose gives: the first element with the longest match whose offset fits in 14 bits. |
| Compress.ChoiceFits | ndk/src/main/jni/pdnsd/src/dns.c:271-285 | A choice that is used gives an offset of at most 0x3fff and an output no longer than the input. |
| Compress.CompressName | ndk/src/main/jni/pdnsd/src/dns.c:248-300 | Writes exactly the output for the name (its uncompressed part and a pointer, or all of it) at the position given and nothing else, adds to the list what RoundTrip.ListedFrom and RoundTrip.CompressesFully rely on, and never writes more than the length of the input. |
| RoundTrip.CompressionRoundTrip | ndk/src/main/jni/pdnsd/src/dns.c:204-300 | For any sequence of calls whose outputs stand in the message, in any order if no offset in it exceeds 0x3fff, otherwise in the order of their offsets and without overlap, with anything else in between: decompressing at each offset accepts, yields the name of the call up to ASCII case, consumes exactly the output, and the output is no longer than the input. |
| RoundTrip.ChosenIsPhysical | ndk/src/main/jni/pdnsd/src/dns.c:262-275 | Every offset that is chosen lies in a part of an earlier output that was written uncompressed, also around the limit 0x3fff. |
| RoundTrip.EarlierHolder | ndk/src/main/jni/pdnsd/src/dns.c:262-275 | Whenever an element of the list was itself replaced by a pointer from some label on, an earlier element has the same labels in its physical part; this is why the first one found can be relied on. |
| RoundTrip.GoodStep | ndk/src/main/jni/pdnsd/src/dns.c:291-298 | One more call keeps the list such that every element has a physical part in the message, and what lies beyond it is held by an earlier element. |
| RoundTrip.OutputReads | ndk/src/main/jni/pdnsd/src/dns.c:278-289 | What is written for a name is read back as that name, following the pointer that was chosen. |
| RoundTrip.ListedFrom | ndk/src/main/jni/pdnsd/src/dns.c:284-298 | A name one of whose labels stands uncompressed in its output is in the list from then on, with the offset of that output. |
| RoundTrip.CompressesFully | ndk/src/main/jni/pdnsd/src/dns.c:248-300 | If a label stands uncompressed in the output for an earlier name, at an offset of at most 0x3fff, and a later name ends like the earlier one from there on, up to case, then what is written for the later name is no longer than its own labels before that point and a pointer: nothing within reach that could be shared is written twice. |
| Wakeup.NoLostWakeup | ndk/src/main/jni/libev/ev.c:1844-1937 | In no reachable state, with any number of senders, is the loop blocked in a poll with nothing to read and no sender in progress while sig_pending or async_pending is set. |
| Wakeup.RunInv | ndk/src/main/jni/libev/ev.c:1844-1937 | Every reachable state satisfies the invariant: a raised flag is covered by pipe_write_skipped, by a byte in the descriptor, by a sender past the flag, or by a loop that has yet to look. |
| Wakeup.WakeupInFlight | ndk/src/main/jni/libev/ev.c:1852-1862 | If the loop is blocked while a flag is set, some sender is about to write to the descriptor. |
| Wakeup.InFlightWakes | ndk/src/main/jni/libev/ev.c:1858-1882 | Each step of such a sender brings it nearer to the write; the write ends the blocking. |
| Wakeup.OnlyServedMarksClear | ndk/src/main/jni/libev/ev.c:1915-1937 | A mark (sent, pending) left by a request is cleared only by the step that goes on to feed its watcher or signal. |
| Wakeup.ServedOrMarked | ndk/src/main/jni/libev/ev.c:4285-4290 | From a completed request on, in every run the watcher or signal has been fed once more, or the mark is still there. |
| Wakeup.StageKept | ndk/src/main/jni/libev/ev.c:1844-1937 | No step of any thread takes a request back behind a stage it has reached (flag raised; pipe_write_skipped set; a sender about to write; descriptor readable or flag about to be tested) before it is served. |
| Wakeup.RoundAdvances | ndk/src/main/jni/libev/ev.c:1844-1886 | A round takes a request whose sender has only left its mark to where the flag is raised, from there to where pipe_write_skipped, the descriptor or the loop knows of it, and from a sender about to write to where the descriptor is readable. |
| Wakeup.RoundWakes | ndk/src/main/jni/libev/ev.c:1858-1882 | A round from where pipe_write_skipped is set: the loop sees it, or, if it has blocked already, a sender sees that the loop wants to be woken and goes on to write. |
| Wakeup.RequestServed | ndk/src/main/jni/libev/ev.c:3001-3063 | With any number of senders that begin and finish whenever they like: a watcher or signal with a mark is fed within five rounds. In a round the loop takes a bounded number of steps, unless it is blocked in the end, and every sender in progress at the start finishes; poll reports a descriptor that is readable. |
| Wakeup.CloserToServing | ndk/src/main/jni/libev/ev.c:1890-1937 | Once the descriptor is readable or the loop is going to test the flag, each step of the loop reduces the distance to the feeding of a marked request, and no step of a sender takes that back. |
| Wakeup.FedForCause | ndk/src/main/jni/libev/ev.c:1890-1937 | In every run a watcher or signal is fed no more often than the request has been made, a mark that is still there counting as one feeding to come; and the loop feeds only what is marked. |
| Wakeup.WantedWhile | ndk/src/main/jni/libev/ev.c:3027-3064 | pipe_write_wanted is up exactly from before the loop looks at pipe_write_skipped until after the poll. |
| Wakeup.WritesForCause | ndk/src/main/jni/libev/ev.c:1844-1882 | A sender gets to write the descriptor only after having found its flag down, and after that having found the loop wanting to be woken. |
| RwLock.MutualExclusion | ndk/src/main/jni/pdnsd/src/cache.c:235-325 | In every run of any number of threads: while one writes, no other reads or writes. |
| RwLock.NeverStuck | ndk/src/main/jni/pdnsd/src/cache.c:235-325 | In every reachable state: if the lock is free and a thread sleeps on r_cond or rw_cond, some thread has been woken and can run. |
| RwLock.RunInv | ndk/src/main/jni/pdnsd/src/cache.c:235-325 | Every reachable state counts its pending and holding threads rightly, suspends readers only for the sake of a writer that is pending or holding, and has woken somebody if the lock is free and somebody sleeps. |
| RwLock.StepInv | ndk/src/main/jni/pdnsd/src/cache.c:235-325 | Each critical section keeps this invariant. |
| RwLock.ReadsExactly | ndk/src/main/jni/pdnsd/src/cache.c:235-248 | In every run, counted in threads: a thread that asks to read gets the lock exactly if no thread writes, at most r/2+2 threads wait to write (r being the threads that wait to read, with this one), and no reader has had to give way for that reason since a writer last finished; otherwise it sleeps. |
| RwLock.WritersGetThrough | ndk/src/main/jni/pdnsd/src/cache.c:235-248 | Once a reader has had to give way because too many writers wait, no thread starts to read before a writer finishes, so that the writers wait only for those that read already. |
| RwLock.WritesExactly | ndk/src/main/jni/pdnsd/src/cache.c:269-282 | A thread that asks to write gets the lock exactly if no thread reads or writes; otherwise it sleeps. |
| RwLock.WriterWakes | ndk/src/main/jni/pdnsd/src/cache.c:311-326 | A writer that finishes wakes all sleeping readers and no writer if a reader waits and at most r/2+2 writers do; otherwise it wakes a writer, if one sleeps, and no reader. |
| RwLock.ReaderLeaves | ndk/src/main/jni/pdnsd/src/cache.c:250-261 | The last reader to leave wakes a writer, if one sleeps; other readers that leave wake nobody. |
| Heap.HeapArray.Upheap | ndk/src/main/jni/libev/ev.c:1750-1770 | From an array that is a heap but for one element that may have to rise: a heap over the same elements, each watcher once, and every watcher knows its index. |
| Heap.HeapArray.Downheap | ndk/src/main/jni/libev/ev.c:1670-1712 | The same for an element that may have to sink. |
| Heap.HeapArray.DownOnce | ndk/src/main/jni/libev/ev.c:1677-1708 | One turn of the loop: the element changes places with its least child and the rest is in order, or the whole is a heap. |
| Heap.HeapArray.MinChild | ndk/src/main/jni/libev/ev.c:1683-1699 | The child found is the least of up to four, also where there are fewer; none is found just if there is none. |
| Heap.HeapArray.Adjustheap | ndk/src/main/jni/libev/ev.c:1773-1780 | After any change of one time the heap is restored, over the same elements. |
| Heap.HeapArray.Reheap | ndk/src/main/jni/libev/ev.c:1783-1792 | Any array of distinct watchers becomes a heap of the same elements. |
| Heap.HeapArray.Shift | ndk/src/main/jni/libev/ev.c:1763-1764 | Moving an element into the hole keeps every other index right and exchanges two elements of the array as it will be. |
| Heap.HeapArray.Settle | ndk/src/main/jni/libev/ev.c:1768-1769 | Putting the element down makes all indices right. |
| Heap.RootIsLeast | ndk/src/main/jni/libev/ev.c:2514-2527 | In a heap as verify_heap demands it, no element is below the root. |
| Heap.UpStep | ndk/src/main/jni/libev/ev.c:1757-1766 | One step up leaves one element that may have to rise, now nearer the root. |
| Heap.DownStep | ndk/src/main/jni/libev/ev.c:1704-1707 | One step down past the least child leaves one element that may have to sink. |
| Pending.PendingQueues.FeedEvent | ndk/src/main/jni/libev/ev.c:1418-1433 | A watcher that is not pending gets one new element on top of the queue of its priority; one that is pending gets the bits added to its element. No other watcher's events change, and the invariant holds: each element is the dummy's or that of a watcher that names it, and each pending watcher has exactly one. |
| Pending.PendingQueues.ClearPending | ndk/src/main/jni/libev/ev.c:3171-3196 | The watcher's events are returned and forgotten, its element is left to the dummy, no other element changes, and the invariant holds. |
| Pending.PendingQueues.TakeTop | ndk/src/main/jni/libev/ev.c:2680-2687 | The top element of a queue is delivered: it is the dummy's, or a pending watcher's with exactly the events it was waiting for; the watcher is not pending any more. |
| Pending.WaitingIsFedSince | ndk/src/main/jni/libev/ev.c:1418-1433 | For any sequence of feeding, clearing and invoking: what a watcher is waiting for is exactly what it was fed since it was last cleared or invoked, and it is pending just if it has been fed since. |
| Pending.FeedNew | ndk/src/main/jni/libev/ev.c:1426-1432 | The step on values: a new element keeps the invariant and adds the events of this watcher only. |
| Pending.FeedMore | ndk/src/main/jni/libev/ev.c:1424-1425 | The step on values: more bits for a pending watcher. |
| Pending.Clear | ndk/src/main/jni/libev/ev.c:3174-3178 | The step on values: leaving an element to the dummy keeps the invariant and removes this watcher only. |
| Pending.ClearOnly | ndk/src/main/jni/libev/ev.c:3174-3178 | No other element points to the watcher that is cleared. |
| Pending.Take | ndk/src/main/jni/libev/ev.c:2683-2686 | The step on values: taking the top element. |
| Dispatch.Dispatcher.TakeTop | ndk/src/main/jni/libev/ev.c:2680-2687 | The watcher whose callback is called has been fed since it was last cleared or invoked, and the callback gets exactly the bits it was fed since then, whatever callbacks did before. |
| Dispatch.Dispatcher.InvokePending | ndk/src/main/jni/libev/ev.c:2675-2689 | With callbacks that feed and clear any watchers: when it ends, every watcher that was pending at the start has been invoked or cleared; of two such watchers the one with the higher priority, or the higher place in the same queue, is invoked first unless one of them is cleared before; and it ends if there are as many turns as elements to begin with and events fed by callbacks. |
| Dispatch.Dispatcher.Invoke | ndk/src/main/jni/libev/ev.c:2680-2687 | One turn: the top element is taken off, and exactly if it is not the dummy its callback is invoked, once, with exactly the bits fed since the watcher was last invoked or cleared; the invariant says this of all invocations so far. |
| Dispatch.TopIsFirst | ndk/src/main/jni/libev/ev.c:2678-2683 | When the top of a queue is taken, everything that comes before it, of those that were pending at the start, has been invoked or cleared. |
| Dispatch.AllSettled | ndk/src/main/jni/libev/ev.c:2675-2689 | When the queues of all priorities have been emptied in turn, nothing that was pending at the start is left over. |
| Dispatch.Dispatcher.ClearPending | ndk/src/main/jni/libev/ev.c:3181-3196 | The events returned are exactly those the watcher was fed since it was last cleared or invoked. |
| Timers.TimerLoop.TimerStart | ndk/src/main/jni/libev/ev.c:3266-3288 | The timer is in the heap at its relative time plus now; all other timers are as they were; nothing happens to a timer that is active already. activecnt and timercnt change alike. |
| Timers.TimerLoop.Append | ndk/src/main/jni/libev/ev.c:3280-3283 | The last place is filled and the heap may only have to let it rise. |
| Timers.TimerLoop.TimerStop | ndk/src/main/jni/libev/ev.c:3290-3318 | The timer leaves the heap, its events are forgotten, its time is relative again; all other timers are as before. |
| Timers.TimerLoop.FillHole | ndk/src/main/jni/libev/ev.c:3304-3310 | Closing the gap with the last element restores the heap over the remaining elements. |
| Timers.TimerLoop.TimerAgain | ndk/src/main/jni/libev/ev.c:3320-3345 | A repeating timer is restarted at now plus its repeat, active or not; another one is stopped; its events are forgotten; all other timers are as before. |
| Timers.TimerLoop.ChangeTime | ndk/src/main/jni/libev/ev.c:3331-3333 | Another time for one timer, wherever it lies, restores the heap. |
| Timers.TimerLoop.Rearm | ndk/src/main/jni/libev/ev.c:2731-2741 | A repeating timer that is due gets its next time, or now if that has passed. |
| Timers.TimerLoop.AdjustPriority | ndk/src/main/jni/libev/ev.c:3198-3205 | The priority is forced into range without disturbing the queues. |
| Timers.TimerLoop.FireAll | ndk/src/main/jni/libev/ev.c:2722-2748 | The loop ends; the timers that were due, and no others, have been collected in order of expiry, each once. |
| Timers.TimerLoop.FeedReverseDone | ndk/src/main/jni/libev/ev.c:1442-1448 | Feeding in reverse gives every collected timer its event and stacks them so that the first collected lies on top. |
| Timers.TimerLoop.TimersReify | ndk/src/main/jni/libev/ev.c:2716-2752 | It ends; exactly the timers that were below now are fed EV_TIMER; no timer below now is left; the others keep their times and repeating ones get their next; and of two timers of one priority that were not pending, the one that expired first lies above the other. |
| Timers.TimerLoop.TimersReschedule | ndk/src/main/jni/libev/ev.c:2849-2860 | All times are shifted, in the heap and in the watchers; the order, the indices and the pending events are untouched. |
| Timers.FireNext | ndk/src/main/jni/libev/ev.c:2726-2747 | Firing the first timer to expire keeps the account of what has been fired and in which order. |
| Timers.AllFired | ndk/src/main/jni/libev/ev.c:2748-2748 | When the first timer is not due, just the timers that were due have been fired. |
| Timers.EarlierOnTop | ndk/src/main/jni/libev/ev.c:1435-1448 | Of two timers fed in reverse that were not pending, the one fired first has the higher place in its queue. |
| Timers.FedEarlierFirst | ndk/src/main/jni/libev/ev.c:1435-1448 | Hence, of all fired timers of one priority that were not pending, one that expired earlier has the higher place in its queue; exactly the due timers have been fed. |
| Timers.ReifiedReschedules | ndk/src/main/jni/libev/ev.c:2726-2747 | What timers_reify leaves of the schedule: a timer that is not due keeps its time; one that was due and does not repeat is gone; one that repeats is at its old time plus its repeat, or at now if that has passed; nothing else is scheduled, each timer once, none before now. |
| Timers.RemoveElement | ndk/src/main/jni/libev/ev.c:3304-3310 | Filling the hole at any place leaves a heap but for that place. |
| Timers.ChangeKey | ndk/src/main/jni/libev/ev.c:3331-3333 | Changing any one time leaves a heap but for that element. |
| Timers.AppendElement | ndk/src/main/jni/libev/ev.c:3278-3283 | A new last element leaves a heap in which only it may have to rise. |
| Timers.ShiftedHeap | ndk/src/main/jni/libev/ev.c:2849-2860 | Shifting all times alike keeps the heap order. |
| Expiry.ReifiedIsFed | ndk/src/main/jni/libev/ev.c:2716-2752 | What timers_reify does to the pending events is just to forget those of the timers it stops and to feed every timer fired, the last one first. |
| Expiry.InvokedInOrder | ndk/src/main/jni/libev/ev.c:2675-2689 | Of two timers that are due, idle before and of one priority, the first to expire is invoked first, unless one of them is cleared by a callback. |
| Expiry.ExpireAndInvoke | ndk/src/main/jni/libev/ev.c:3070-3089 | Timers reified and pending events invoked, one after the other: exactly the due timers are fired, those of one priority that were idle are invoked in the order of their expiry, and with turns enough each of them is invoked or cleared by a callback. |
| Backends.Poll.Modify | ndk/src/main/jni/libev/ev_poll.c:51-86 | polls and pollidxs stay inverse to each other and hold exactly the descriptors with a mask that is not zero, each with its mask, also after the removal by swapping with the last element. |
| Backends.Poll.Find | ndk/src/main/jni/libev/ev_poll.c:59-70 | The element for a descriptor is found or added; all other elements stay right. |
| Backends.Removed | ndk/src/main/jni/libev/ev_poll.c:76-85 | Moving the last element into the gap and correcting its index leaves array and index inverse. |
| Backends.Added | ndk/src/main/jni/libev/ev_poll.c:63-68 | A new element at the end with its index. |
| Backends.Changed | ndk/src/main/jni/libev/ev_poll.c:72-75 | A changed mask for one element. |
| Backends.PollMaskExact | ndk/src/main/jni/libev/ev_poll.c:73-75 | Different read/write masks have different poll masks. |
| Backends.PollMaskIs | ndk/src/main/jni/libev/ev_poll.c:73-75 | The poll mask has POLLIN exactly if reading is of interest, POLLOUT exactly if writing is, and no other bit. |
| Backends.Select.Modify | ndk/src/main/jni/libev/ev_select.c:74-141 | The bits of both vectors say for every descriptor whether reading and writing is wanted; vectors grow as needed; other bits stay. |
| Backends.Assign | ndk/src/main/jni/libev/ev_select.c:132-138 | Exactly one bit of one vector takes the value wanted. |
| FdLayer.FdLoop.IoStart | ndk/src/main/jni/libev/ev.c:3224-3245 | The watcher is active and in the list of its descriptor, the descriptor is marked, with EV__IOFDSET if the watcher has that, and the invariant holds: lists hold exactly the active watchers, each once, and what is not marked has been told to the backend. |
| FdLayer.FdLoop.IoStop | ndk/src/main/jni/libev/ev.c:3247-3264 | The same for stopping: the watcher is in no list any more. |
| FdLayer.FdLoop.Change | ndk/src/main/jni/libev/ev.c:1556-1568 | reify is nonzero exactly for the descriptors listed, each once. |
| FdLayer.FdLoop.FdReify | ndk/src/main/jni/libev/ev.c:1496-1553 | Afterwards nothing is marked or listed, and for every descriptor and every bit the mask the backend holds has the bit just if an active watcher of that descriptor has it. The backend was told exactly of those descriptors listed whose mask has changed or that were marked EV__IOFDSET. |
| FdLayer.FdLoop.ReifyOne | ndk/src/main/jni/libev/ev.c:1526-1550 | One descriptor: its mask becomes the union of its watchers' masks and the backend is told of it just if it has changed or the descriptor may be another file. |
| FdLayer.WlistDel | ndk/src/main/jni/libev/ev.c:3155-3168 | Exactly the first occurrence of the watcher is unlinked. |
| FdLayer.AllAgreed | ndk/src/main/jni/libev/ev.c:1496-1553 | With no changes left, the committed masks are exactly the interests of the active watchers. |
| FdLayer.Relisted | ndk/src/main/jni/libev/ev.c:3238-3258 | Adding a watcher to, or taking it out of, a list whose descriptor is marked keeps the invariant. |
| FdLayer.WantBit | ndk/src/main/jni/libev/ev.c:1541-1542 | A bit is in the union of the masks just if one watcher has it. |
| AgeList.ListMerge | ndk/src/main/jni/pdnsd/src/cache.c:972-1004 | Relinks two lists in place into the merge of their entries by time stamp, the first list's first among equals; nothing else is relinked. |
| AgeList.MergeSorted | ndk/src/main/jni/pdnsd/src/cache.c:972-1004 | The merge of two ordered runs, all of the first from before the second, is an ordered run of the same entries; it is stable. |
| AgeList.AddEntry | ndk/src/main/jni/pdnsd/src/cache.c:1024-1038 | One more entry: every slot is NULL or leads to a sorted run of exactly 2^i entries, and the slots together hold exactly the entries so far; the slot used exists, so 32 slots suffice for lists shorter than 2^32. |
| AgeList.GatherStep | ndk/src/main/jni/pdnsd/src/cache.c:1027-1030 | Merging a slot into the carry keeps this account. |
| AgeList.CarryEnds | ndk/src/main/jni/pdnsd/src/cache.c:1034-1036 | So does storing the carry in the first empty slot. |
| AgeList.NoOverflow | ndk/src/main/jni/pdnsd/src/cache.c:1017-1032 | The array of slots cannot overflow. |
| AgeList.MergeSlots | ndk/src/main/jni/pdnsd/src/cache.c:1040-1046 | Merging all slots gives one sorted list of all entries. |
| AgeList.RrlList.SortRrl | ndk/src/main/jni/pdnsd/src/cache.c:1009-1055 | The list is a stable sort by time stamp of the entries it had, with correct back links and tail. |
| AgeList.RrlList.RestoreBack | ndk/src/main/jni/pdnsd/src/cache.c:1048-1053 | All back links and the tail are right for the list as it is linked forwards. |
| AgeList.RrlList.InsertRrl | ndk/src/main/jni/pdnsd/src/cache.c:889-950 | The entry is inserted at the end or, with insert_sort, behind the last one that is not younger; links in both directions are right. |
| AgeList.RrlList.RemoveRrl | ndk/src/main/jni/pdnsd/src/cache.c:953-965 | Exactly this entry is unlinked, in both directions, also at either end. |
| AgeList.SortedRunUnique | ndk/src/main/jni/pdnsd/src/cache.c:1009-1055 | There is only one stable order, so the result is determined. |
| AgeList.InsertedByAge | ndk/src/main/jni/pdnsd/src/cache.c:905-930 | Insertion at that place keeps the list ordered. |
| AgeIndex.OneNodeEach | ndk/src/main/jni/pdnsd/src/cache.c:145-151 | No two listed elements share a node of the linked list, and none is listed twice. |
| AgeIndex.NodesAreListed | ndk/src/main/jni/pdnsd/src/cache.c:889-901 | In a cache whose list is right there is a node just for each set that is not local, of an entry that is not, and for each negative entry that is not local. |
| AgeIndex.Index.Insert | ndk/src/main/jni/pdnsd/src/cache.c:889-950 | The element points to a new node that stands in the linked list where the list as a value has the element; all other elements keep their nodes. |
| AgeIndex.Index.Remove | ndk/src/main/jni/pdnsd/src/cache.c:953-965 | Unlinking the node an element points to removes exactly this element. |
| AgeIndex.Index.Sort | ndk/src/main/jni/pdnsd/src/cache.c:1009-1055 | Sorting the nodes leaves every element its node and puts the elements in the order of their time stamps. |
| HashTable.HashOf | ndk/src/main/jni/pdnsd/src/hash.c:57-85 | Both hashes are those of the name at the start of the buffer, computed over its bytes in upper case. |
| HashTable.SameNameHashes | ndk/src/main/jni/pdnsd/src/hash.c:57-85 | Names that are the same under rhnicmp have the same pair of hashes. |
| HashTable.DnsHash.Lookup | ndk/src/main/jni/pdnsd/src/hash.c:106-127 | The entry returned is what the table, as a map keyed by names without regard to case, holds for the name; the place returned is that of the entry or the one where it belongs. |
| HashTable.DnsHash.Search | ndk/src/main/jni/pdnsd/src/hash.c:115-121 | The loop finds the name if it is in the chain, despite leaving at the first larger hash. |
| HashTable.StopIsGap | ndk/src/main/jni/pdnsd/src/hash.c:115-121 | When the loop stops early, the name is not further on in the chain. |
| HashTable.DnsHash.Add | ndk/src/main/jni/pdnsd/src/hash.c:137-150 | Adding at the place found is adding to the map; chains stay ordered with one entry per name. |
| HashTable.DnsHash.DelEnt | ndk/src/main/jni/pdnsd/src/hash.c:155-164 | Deleting at the place found removes exactly this name from the map. |
| HashTable.DnsHash.Del | ndk/src/main/jni/pdnsd/src/hash.c:170-189 | Deleting by name removes exactly this name, or nothing if it is not there. |
| HashTable.AddRight | ndk/src/main/jni/pdnsd/src/hash.c:137-150 | Insertion into a chain refines insertion into the map. |
| HashTable.DeleteRight | ndk/src/main/jni/pdnsd/src/hash.c:155-164 | Removal from a chain refines removal from the map. |
| CacheStore.DropSet | ndk/src/main/jni/pdnsd/src/cache.c:776-793 | Deleting a set keeps the invariant: cs is the size of what each entry holds, num_rrs counts its sets, and the list by age has exactly one node for each set that is not local, of an entry that is not, and for each negative entry that is not local. |
| CacheStore.DropCent | ndk/src/main/jni/pdnsd/src/cache.c:813-838 | Deleting an entry with all its list nodes keeps the invariant. |
| CacheStore.AddSet | ndk/src/main/jni/pdnsd/src/cache.c:605-654 | Adding a set to an entry, negative or not, and listing it keeps the invariant. |
| CacheStore.SetsWith | ndk/src/main/jni/pdnsd/src/cache.c:649-652 | A set added accounts for exactly its size and one in the count. |
| CacheStore.SetsWithout | ndk/src/main/jni/pdnsd/src/cache.c:785-789 | A set deleted accounts for exactly its size and one in the count. |
| CacheStore.TotalWithout | ndk/src/main/jni/pdnsd/src/cache.c:2061-2070 | The sizes of all entries add up whichever entry is taken out first. |
| CacheStore.InsertedIs | ndk/src/main/jni/pdnsd/src/cache.c:905-945 | Insertion as insert_rrl does it adds exactly one node, and keeps the order if it inserts in order. |
| CacheStore.WithoutAt | ndk/src/main/jni/pdnsd/src/cache.c:953-965 | Removing one node leaves the rest of the list as it was. |
| CacheStore.CrCheckIs | ndk/src/main/jni/pdnsd/src/cache.c:1759-1814 | When the new set is let in, nothing is left that conflicts with it; what is removed was in conflict, and local only if the new set is local. |
| CacheStore.CrCheckExact | ndk/src/main/jni/pdnsd/src/cache.c:1759-1814 | A set is let in exactly if it is negative or local, or neither the entry nor any set in conflict is local and its time to live exceeds the mean of what those in conflict have left (times their number, their sum). If it is let in and not negative, exactly the sets in conflict go; otherwise none does. |
| CacheStore.ConflictsAre | ndk/src/main/jni/pdnsd/src/rr_types.h:464-530 | Two types are in conflict exactly if their classes are different and neither is the one that excludes none. |
| CacheStore.MergeOneConflictFree | ndk/src/main/jni/pdnsd/src/cache.c:1941-1974 | Merging one set keeps an entry free of conflicts. |
| CacheStore.MergeOneLocal | ndk/src/main/jni/pdnsd/src/cache.c:1941-1974 | Merging a set that is not local removes or alters no local set. |
| CacheStore.MergeSafe | ndk/src/main/jni/pdnsd/src/cache.c:1932-1976 | The same for merging all sets of a new entry; the accounts stay right. |
| CacheStore.MergedIs | ndk/src/main/jni/pdnsd/src/cache.c:1928-1976 | Set i after a merge, unless another new set is in conflict with it: without a new one it stays until its time has run out, and longer if it is local or may not be purged; with a new one it stays just if it is local and the new one is not, or if the new one is an additional record, the old one is still good and is no additional record, or comes from a root server as the new one does not; otherwise the new one takes its place with its records, time stamp and flags and its time to live within the limits, if nothing old is in conflict, or nothing at all does if the entry is local and the new set is neither local nor negative. |
| CacheStore.MergedAuth | ndk/src/main/jni/pdnsd/src/cache.c:1977-1977 | A merged entry is marked authoritative, which means complete, if what is merged is, and otherwise only if it was before and has lost nothing. |
| CacheStore.LeftEmpty | ndk/src/main/jni/pdnsd/src/cache.c:1885-1893 | An entry that is neither local nor negative has nothing in it after a merge exactly if nothing is merged and the time of all it had has run out; add_cache avoids such entries only for new names. |
| CacheStore.AdjustedIsCopy | ndk/src/main/jni/pdnsd/src/cache.c:1817-1858 | A new entry is a copy with the same sets, records, time stamps and flags; a time to live within the limits is unchanged, another one becomes the nearest limit, and 0 if it is not to be cached. |
| CacheStore.PurgedAllIs | ndk/src/main/jni/pdnsd/src/cache.c:1207-1243 | Purging an entry keeps just the sets that have not timed out or may not be purged; the array for rare types is freed and accounted for when it is empty. |
| CacheStore.ShrunkSafe | ndk/src/main/jni/pdnsd/src/cache.c:1314-1366 | Purging loses or alters no local set. |
| CacheStore.ShrunkConflictFree | ndk/src/main/jni/pdnsd/src/cache.c:1314-1366 | Purging keeps entries free of conflicts. |
| CacheStore.BothPasses | ndk/src/main/jni/pdnsd/src/cache.c:1314-1366 | If both passes are made, nothing stale is left, and what has been removed without being stale is older than all that is left. |
| CacheStore.NoNodes | ndk/src/main/jni/pdnsd/src/cache.c:1335-1337 | An entry whose last set has gone has no node in the list: deleting it removes no node besides the current one. |
| CacheStore.OneNode | ndk/src/main/jni/pdnsd/src/cache.c:1335-1337 | A negative entry has just its own node. |
| CacheStore.DeniedAll | ndk/src/main/jni/pdnsd/src/cache.c:1932-1976 | Merging sets into an entry that is locally negated leaves it as it is if none of them is negative or local; otherwise it is not negative any more. |
| CacheStore.LocalNegationKept | ndk/src/main/jni/pdnsd/src/cache.c:1914-1984 | Adding any entry to one that is locally negated leaves a local negation if and only if the new entry is a local negation itself, or is not negative and has no set that is negative or local. For an entry that is not local: if and only if it is not negative and holds no negative set (and no local one). |
| CacheStore.ShrunkDenied | ndk/src/main/jni/pdnsd/src/cache.c:1314-1366 | Purging neither makes nor undoes a local negation. |
| CacheStore.Nearer | ndk/src/main/jni/pdnsd/src/cache.c:1978-1981 | The larger of two numbers of name elements, as far as they are defined. |
| Cache.Cache.InsertRrl | ndk/src/main/jni/pdnsd/src/cache.c:889-950 | The node is inserted where it belongs; nothing happens for what is local. |
| Cache.Cache.DelCentRrset | ndk/src/main/jni/pdnsd/src/cache.c:776-793 | The set and its node go, the size returned is what the entry loses, the invariant holds. |
| Cache.FreeNodes | ndk/src/main/jni/pdnsd/src/cache.c:813-838 | Freeing an entry removes exactly its nodes. |
| Cache.Cache.DelCent | ndk/src/main/jni/pdnsd/src/cache.c:2061-2091 | The entry goes with its nodes; cache_size and ent_num stay right. |
| Cache.Cache.DelCache | ndk/src/main/jni/pdnsd/src/cache.c:2094-2103 | The entry for the name goes, if there is one. |
| Cache.Cache.PurgeRrset | ndk/src/main/jni/pdnsd/src/cache.c:1188-1198 | The set goes just if it has timed out and may be purged; cache_size stays the sum of all sizes. |
| Cache.Cache.PurgeAllRrsets | ndk/src/main/jni/pdnsd/src/cache.c:1207-1243 | The entry keeps just what PurgedAllIs says; cache_size and the number of sets left are right. |
| Cache.Cache.PurgeAt | ndk/src/main/jni/pdnsd/src/cache.c:1323-1340 | The current node leaves the list exactly if what it stands for has timed out and may be purged: the saved next node stays valid. Nothing else changes, and no entry is left empty. |
| Cache.Cache.PurgeTimedOut | ndk/src/main/jni/pdnsd/src/cache.c:1317-1340 | The first pass ends, keeps the invariant, changes no set and removes no local one. Afterwards nothing in the list has timed out that may be purged (time stamp plus the time to live, at least 120 s, before now), unless it is lazy and the size is at most sz; what it has removed had timed out; if it is lazy, the cache was still too large when the last element was removed, and nothing happens if there is room. |
| Cache.Cache.DropOldest | ndk/src/main/jni/pdnsd/src/cache.c:1353-1365 | The second pass removes exactly the oldest node in each turn. |
| Cache.Cache.PurgeOldest | ndk/src/main/jni/pdnsd/src/cache.c:1344-1365 | What is left of the list, ordered by age, is its younger end; it ends with a size of at most sz or an empty list, and the cache was larger than sz with the last element that was removed. |
| Cache.Cache.PurgeCache | ndk/src/main/jni/pdnsd/src/cache.c:1314-1366 | It ends with cache_size at most sz or an empty list and keeps all accounts and local sets. Not lazy, it leaves nothing that has timed out and may be purged. A set or negation that had not timed out goes only if no such thing is left, and then the oldest first; a lazy purge, and the second pass, remove nothing that need not go; no entry is left empty. |
| Cache.Cache.CrCheckAdd | ndk/src/main/jni/pdnsd/src/cache.c:1759-1814 | Decision and effect are those of the reference check CrCheck; the size of the entry stays right. |
| Cache.Cache.CountRivals | ndk/src/main/jni/pdnsd/src/cache.c:1776-1795 | The loop finds a conflicting local set if there is one, and otherwise the number of conflicting sets and their remaining time to live. |
| Cache.Cache.AddRrset | ndk/src/main/jni/pdnsd/src/cache.c:1957-1973 | The new set is there with its records in order and its time to live adjusted, accounted for and listed. |
| Cache.Cache.MergeSet | ndk/src/main/jni/pdnsd/src/cache.c:1934-1975 | One set is merged as the reference MergeOne says; list and accounts stay right. |
| Cache.Cache.MergeInto | ndk/src/main/jni/pdnsd/src/cache.c:1928-1984 | An existing entry becomes the reference Merged of both: sets, flags, and the numbers of name elements for NS and SOA records; all other entries are as before; cache_size is right again at the end. |
| Cache.Cache.AddNew | ndk/src/main/jni/pdnsd/src/cache.c:1887-1913 | A copy of the entry with adjusted times to live is in the cache, with a node for each set that is not local. |
| Cache.Cache.Enter | ndk/src/main/jni/pdnsd/src/cache.c:1881-1984 | What each of the three ways of adding leaves, without reference to how: a new entry is copied if it holds anything; a negation takes the place of what is there unless that has local sets, and then nothing is done; otherwise set by set what MergedIs says, the flags, and the numbers of name elements. Nothing else in the cache changes. |
| Cache.Cache.AddCache | ndk/src/main/jni/pdnsd/src/cache.c:1874-2002 | For any entry whose own accounts are right: the cache is as Enter leaves it, and then as PurgeCache leaves that with the configured size, lazily. All accounts stay right; if nothing local is added no local set is lost; an entry stays free of conflicts; a local negation is still there exactly if what is added respects it. |
| Cache.LosesLocalNegation | ndk/src/main/jni/pdnsd/src/cache.c:1914-1984 | Two concrete inputs: a local negation is lost to an entry with a negative set that is not local, and to a negation that is not local. |
| QuerySm.Query.Sm | ndk/src/main/jni/pdnsd/src/dns_query.c:848-1093 | For every outcome of every system call: it returns -1 exactly if this turn gets to where the socket is to be waited for, which is then open, in a waiting state; RC_OK exactly if in this turn all of an answer has been received, with the length of that answer; TCP that is refused or breaks leads to a request by UDP exactly if the method allows both, and to RC_SERVFAIL otherwise. What others own is unchanged; memory is freed twice exactly if a length of zero is read while there is a buffer. |
| QuerySm.Os.ReallocOrCleanup | ndk/src/main/jni/pdnsd/src/dns_query.c:785-791 | The new memory, or none and the old one freed; the old one is freed twice exactly if there was one, the new size is zero and realloc frees it then. |
| QuerySm.Query.ReadLength | ndk/src/main/jni/pdnsd/src/dns_query.c:954-972 | Goes on exactly if the two bytes of the length have been read and there is memory for that much, waits exactly if nothing can be read yet, fails for TCP exactly if anything else was read; a length of zero frees a buffer twice. |
| QuerySm.Query.StartTcp | ndk/src/main/jni/pdnsd/src/dns_query.c:858-921 | The outcome is exactly what socket, bind, fcntl and connect, with the fallback address, come to; the socket is open afterwards just if the state is TCPWRITE. |
| QuerySm.Query.Write | ndk/src/main/jni/pdnsd/src/dns_query.c:923-952 | Never writes beyond the message; goes on just if all of it has been written, otherwise remembers how much; UDP may be tried exactly if the connection is refused before the first byte. |
| QuerySm.Query.Read | ndk/src/main/jni/pdnsd/src/dns_query.c:953-993 | Never reads beyond the memory allocated for the answer, and remembers how much has been read; succeeds exactly if all of it has been, fails for TCP exactly if the connection breaks or ends before, and for good exactly if there is no memory; on failure the socket is closed once. |
| QuerySm.Query.StartUdp | ndk/src/main/jni/pdnsd/src/dns_query.c:1008-1059 | The outcome is exactly what the system calls come to; the socket is open afterwards just if the state is UDPRECEIVE. |
| QuerySm.Query.Receive | ndk/src/main/jni/pdnsd/src/dns_query.c:1060-1086 | A reply that is too short or not to this query leaves the state; one that is succeeds, and everything else closes the socket once and fails, for want of memory or because of the error. |
| QuerySm.Query.ExecQuery | ndk/src/main/jni/pdnsd/src/dns_query.c:1138-1352 | Between calls the query owns its socket, message and buffer in exactly the waiting states; what belonged to it has been freed once, but for the one case of a length of zero. An answer that arrives in the call: with RC_OK or RC_NAMEERR it is used and its result returned; a refusal by a server that does not recurse leads to a second request that differs only in the RD bit; RC_FORMAT, or a refusal for another reason, to a query with an OPT record leads to a second request without it, of the length without it, and EDNS stays off; otherwise the answer is discarded and its code returned. If none arrives it is waited for exactly if the turn gets to where the socket is to be waited for, and the query fails otherwise. There are at most eight requests. |
| QuerySm.Query.Exec | ndk/src/main/jni/pdnsd/src/dns_query.c:1197-1344 | The repetitions end: each has a smaller method rank, EDNS flag or RD bit; the answer to the first request is used, discarded, or followed by a request with less, as ExecQuery says. |
| QuerySm.Query.Judge | ndk/src/main/jni/pdnsd/src/dns_query.c:1226-1338 | Exactly when an answer is used, discarded with which code, or makes the request be repeated, without the RD bit or without the OPT record; the new length and flags in each case. |
| QuerySm.Query.Cancel | ndk/src/main/jni/pdnsd/src/dns_query.c:1928-1942 | In any state: afterwards the query owns nothing, and what others own is untouched. |
| QuerySm.Query.SwitchToUdp | ndk/src/main/jni/pdnsd/src/dns_query.c:804-811 | A hybrid method is given up; the same message is sent by UDP, and the number of requests still possible falls. |
| QuerySm.Query.SwitchToTcp | ndk/src/main/jni/pdnsd/src/dns_query.c:815-822 | The same after a truncated answer. |
| QuerySm.Query.TimedOut | ndk/src/main/jni/pdnsd/src/dns_query.c:2314-2323 | A TCP connection that timed out is closed once; the same message is sent by UDP, and waited for exactly if a socket can be opened, connected and sent on. |
| QuerySm.Query.Truncated | ndk/src/main/jni/pdnsd/src/dns_query.c:2178-2185 | A truncated answer by UDP leads to a first request by TCP, unless there is no memory for it, and it is waited for if the connection is being made. |
| QuerySm.ZeroLengthFreesTwice | ndk/src/main/jni/pdnsd/src/dns_query.c:953-972 | A concrete run of p_exec_query, with TCP only and recursion desired: an answer SERVFAIL without RA, then an answer of length zero; the buffer is freed twice, everything else once. |
| Resolver.PRecursiveQuery | ndk/src/main/jni/pdnsd/src/dns_query.c:2085-2589 | For whatever the queries bring, in whatever order: the answer used is the first that satisfies, and nothing is waited for after it; if none does, the best one. If servers have been found for it, they are asked the same, with one hop less and what has been queried; otherwise it is the outcome. If its server claims to be authoritative or to have recursion, it is used also if asking on fails. Without an answer it fails, with the code of the server or RC_SERVFAIL. |
| Resolver.Gather | ndk/src/main/jni/pdnsd/src/dns_query.c:2133-2446 | The waiting ends because each query comes to an end at most once, or twice if it is repeated with TCP. It ends with an answer that satisfies, that the name does not exist, an error, or when no query is running or time has run out; what has been saved is dropped for an error or a name that does not exist. |
| Resolver.Consider | ndk/src/main/jni/pdnsd/src/dns_query.c:2152-2184 | One answer: it ends the waiting exactly if it is good enough, its server has not failed, and it is not a truncated one that TCP may improve on; otherwise the first of the best answers so far is the one saved. |
| Resolver.SavingNext | ndk/src/main/jni/pdnsd/src/dns_query.c:2097-2130 | Comparing the sums of weights keeps the first of the best answers, in the order good enough, less failed, not truncated. |
| Resolver.AuthOk | ndk/src/main/jni/pdnsd/src/dns_query.c:2598-2880 | An answer is good enough exactly if its server has not failed and it is authoritative, or servers have been found. Only if it is neither and hops are left, all the name servers it names are looked up, in order and with one hop less, but for those being looked up already. Found are exactly the addresses of those looked up with success, but for local ones and those that have been queried, here or further up. |
| Resolver.WantedAre | ndk/src/main/jni/pdnsd/src/dns_query.c:2748-2763 | The name servers looked up are exactly those of the answer whose address is not being looked up already. |
| Resolver.PDnsCachedResolve | ndk/src/main/jni/pdnsd/src/dns_query.c:3472-3552 | The record of the call explains its outcome by what the cache, the link and the servers have done and by the records of the calls it has led to, all of them proper ones: a locally defined or negated name, a link that is down, an entry of the cache, the servers it was told or those configured, and an old entry kept for failures, in this order. |
| Resolver.Bounded | ndk/src/main/jni/pdnsd/src/dns_query.c:3472-3552 | Every call in the tree of a proper one is proper; its chain has no repeated look-up of a name server and ends with the chain it all began with; and the length of its chain plus its hops never exceeds that of the first. |
| Resolver.DepthBounded | ndk/src/main/jni/pdnsd/src/dns_query.c:3472-3552 | The tree is no deeper than one more than the hops of its first call. |
| Resolver.EndsBounded | ndk/src/main/jni/pdnsd/src/dns_query.c:2133-2446 | However the servers behave, no more than two queries to each come to an end in one call. |
| Resolver.QueriedOnce | ndk/src/main/jni/pdnsd/src/dns_query.c:2168-2183 | After any number of events: a server of which there was none is as at the start; after its last one it is done, except exactly that it is to be queried with TCP after a first answer that is truncated, if both methods may be used. |
| Resolver.NothingMadeUp | ndk/src/main/jni/pdnsd/src/dns_query.c:3472-3579 | Every answer, and every denial, originates in the cache or with a server that was asked, here or in a call that asks on: an answer used, an entry of the cache, an old entry kept, or a server or the cache saying that the name does not exist. |
| Resolver.AskedAgain | ndk/src/main/jni/pdnsd/src/dns_query.c:2834-2852 | A server that is asked on has been queried already, here or further up, exactly if its query came to an end after the answer that names it; never if that answer ended the waiting. |
| Resolver.AskedTwice | ndk/src/main/jni/pdnsd/src/dns_query.c:2834-2852 | A concrete tree of calls in which a server is asked twice: its first query fails after another server has named it in an answer that is not trusted. |
| Resolver.PDnsResolve | ndk/src/main/jni/pdnsd/src/dns_query.c:3193-3322 | Without servers it fails; otherwise the outcome is that of asking those configured. |
| Resolver.RDnsCachedResolve | ndk/src/main/jni/pdnsd/src/dns_query.c:3559-3579 | The look-up of a name server is a proper call with the hops given; an entry that is negative is turned into an error, and every answer into RC_OK. |
| Resolver.ChainGrows | ndk/src/main/jni/pdnsd/src/dns_query.c:2748-2767 | After the test, the chain with the new name still has each address look-up once. |
| Resolver.Recurring | ndk/src/main/jni/pdnsd/src/dns_query.c:2748-2763 | The loop over the chain skips a name server just if its address is being looked up already. |
| Resolver.AlreadyQueried | ndk/src/main/jni/pdnsd/src/dns_query.c:2834-2852 | A server is passed over just if a query to its address has come to an end here or further up. |
| Resolver.AddServers | ndk/src/main/jni/pdnsd/src/dns_query.c:2819-2864 | The list grows by addresses of this name server only; afterwards it has all of them but for those that are local or have been queried; none that an earlier name server had is added. |
| DiskFormat.WriteDiskCache | ndk/src/main/jni/pdnsd/src/cache.c:1631-1732 | The file is the version, the number of entries that follow, and those entries. |
| DiskFormat.WriteCent | ndk/src/main/jni/pdnsd/src/cache.c:1675-1725 | An entry is its header, name and the sets that are not local, in order. |
| DiskFormat.WriteRrset | ndk/src/main/jni/pdnsd/src/cache.c:1554-1586 | A set is its header and its first records, at most 255. |
| DiskFormat.ToWrite | ndk/src/main/jni/pdnsd/src/cache.c:1659-1674 | An entry is written just if it is negative and not local, or has a set that is not local. |
| DiskFormat.ReadDiskCache | ndk/src/main/jni/pdnsd/src/cache.c:1395-1513 | For any bytes: the entries are those of the reference reader ReadFile, up to the first thing that is wrong; each has the encoding of a name, sets of cached types in strictly ascending order with at most 255 different records each, and none if it is negative; there are no more than the number in the file. |
| DiskFormat.ParseSets | ndk/src/main/jni/pdnsd/src/cache.c:1466-1510 | For any bytes: as many sets as announced, of cached types in strictly ascending order, with at most 255 records each, all different, or an error; what a local entry holds besides local sets has no records. |
| DiskFormat.CheckName | ndk/src/main/jni/pdnsd/src/cache.c:1444-1459 | A name is accepted if and only if its bytes, with a zero at the end, are the encoding of a name. |
| DiskFormat.NameOkIs | ndk/src/main/jni/pdnsd/src/cache.c:1444-1459 | The check of the labels accepts exactly the encodings of names, without their final zero. |
| DiskFormat.FileRead | ndk/src/main/jni/pdnsd/src/cache.c:1395-1513 | Whatever the file holds, every entry taken from it is a proper one. |
| DiskFormat.FileRoundTrip | ndk/src/main/jni/pdnsd/src/cache.c:1423-1513 | Reading the file that was written gives exactly the entries that were to be written, in order, each with its sets that are not local, their flags, times and records (without repetitions, at most 255, and none in a local entry); the number at the start is theirs. |
| DiskFormat.BackExact | ndk/src/main/jni/pdnsd/src/cache.c:715-728 | What comes back of a set is the set if and only if it has at most 255 records, all different; in a local entry, if and only if it has no records. |
| DiskFormat.LosesRecords | ndk/src/main/jni/pdnsd/src/cache.c:715-728 | Two concrete inputs: a record that is there twice, and a record of a local entry, do not come back. |
| DiskFormat.SetReadExact | ndk/src/main/jni/pdnsd/src/cache.c:1466-1510 | Reading a set that has been written gives that set exactly under this condition. |
| DiskFormat.LocalEntryKeepsNone | ndk/src/main/jni/pdnsd/src/cache.c:721-722 | In an entry marked local, a set that is not local is read back without records whatever is in the file. |
| DiskFormat.CentBack | ndk/src/main/jni/pdnsd/src/cache.c:1428-1512 | An entry written anywhere in a file is read back there, and reading goes on behind it. |

## Left out

- Weak memory: the wake-up protocol is modelled under sequential consistency, which is what its fences are for.
- Nested ev_run, ev_break, once, fork and child watchers, periodics, signals other than the wake-up, and all backends but poll and select: their correctness rests on the kernel or repeats what is proved.
- Floating point: libev's times are reals, and the guards against rounding are not modelled.
- Pending.PendingQueues.FeedEvent: takes watchers whose priority is in range, as verify_watcher demands of them; priorities changed while a watcher is pending are not modelled.
- Dispatch.Dispatcher.InvokePending: a callback may feed for ever, so the number of turns is bounded by a parameter; the contract says when it is enough. Callbacks feed and clear, but do not start timers or call the loop again.
- FdLayer.FdLoop.IoStop: clear_pending is left to the module Pending; intrusive lists of watchers are sequences, and the Windows branches of fd_reify are not modelled.
- Backends.Select.Modify: the words of the vectors are sets of bit positions.
- RoundTrip.CompressionRoundTrip: an output that is taken back from the message (rolling back an additional record leaves the list behind) is not modelled.
- timedlock_cache_rw and the softlock variants: a writer that times out lowers rw_pend and leaves r_susp.
- Allocation failures, except in the query state machine; the lock around the cache; logging and debug dumps.
- add_reverse_cache, which shares RR sets that are not accounted for while it runs, and invalidate_record, which rewrites time stamps in place and so breaks the order by age.
- Cache.Cache.AddCache: the table, the list and the entries are values here, so aliasing between them is not captured; AgeIndex, AgeList and HashTable have the list and the table. purge_cent with `delete` and the empty_cache command are not modelled.
- Cache.Cache.MergeInto: purge_cent also sets c_ns and c_soa back to undefined when the sets they refer to, of this name or one above it, are missing or stale; that is not modelled.
- Cache.Cache.PurgeOldest: the sorting itself is an insertion sort here; AgeList proves sort_rrl, and AgeIndex that it sorts the list of the cache.
- Resolver.PRecursiveQuery: how many servers are queried at a time, and for how long, is left open: the order in which queries come to an end is a parameter. That an answer that was not good is not to be cached (CF_NOCACHE), and running out of memory, are not part of the model.
- Resolver.AuthOk: the tests that an answer is authoritative enough are left open.
- QuerySm.Query.ExecQuery: that memory is freed twice is counted; what that does to the rest of the program is not modelled.
- QuerySm.Query.Finish: what is done with the records of an answer is not modelled, only that the answer is freed at the end.
- Decoding of RR data, composing answers, configuration, ICMP and network devices, list allocation, and all Java and JNI code.
