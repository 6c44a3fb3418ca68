# Verified model of the virtqueue and display driver cores

Dafny models, with proofs, of the parts of the driver in which most of its state lives.

- **Packed virtqueue** (`PackedDriver`, `PackedQueue`, `PackedProtocol`, `PackedProofs`, `PackedSteps`,
  `PackedTheorems`, `PackedNotify`). `PackedQueue.Virtqueue` is the driver as a class over arrays.
  `PackedProtocol` interleaves its ring stores, one at a time, with a conforming device that completes
  buffers in any order; `PackedTheorems` is about every run (section 2.8 of VIRTIO 1.2). `PackedNotify`
  adds the device's event suppression area and a device that sleeps until it is notified.
- **Split virtqueue** (`SplitDriver`, `SplitQueue`, `SplitProtocol`, `SplitSteps`, `SplitTheorems`,
  `SplitNotify`). The same structure (section 2.7 of VIRTIO 1.2). While an add is being written the
  protocol lets the new descriptors and the next ring slot hold anything at all, so no order of those
  stores is relied on.
- **Persistent scanout** (`IdAllocator`, `HostTrace`, `ScanoutModel`, `ScanoutProofs`,
  `ScanoutTheorems`, `ScanoutAdapter`, `ScanoutOutcomes`, `ScanoutLag`). `HostTrace` judges a log of
  resource commands and of pages locked and unlocked, knowing nothing of the driver; `ScanoutTheorems`
  shows that no run of the adapter ever breaks it, and what the host shows; `ScanoutOutcomes` says what
  every request and every other operation comes to. `ScanoutLag` is about a host that serves its queue
  late.
- **Command buffers and scatter-gather lists** (`Paging`, `SgList`, `BufferPool`, `BufferLife`).
- **Rotating blitter** (`BlitSpec`, `BlitCopy`), **EDID parser** (`EdidSpec`, `EdidTheorems`, `EdidParser`),
  **configuration snapshot** (`ConfigSnapshot`).
- `RingMath`, `FlagWord` and `Common` hold the shared arithmetic, flag words and finite lists.

Where the source changes state step by step the model is a class or a method with loops, and its
contract ties the new state to a function of the old one; what the source promises is proved of
those functions. In the protocol modules `History` fields record the past and are read by nobody;
`done == []` in `DoGet` is such a record and is never true there under the invariant.

What the device wrote comes into the queue classes as parameters or as the content of the shared
array. The environment also decides, through parameters, whether user pages can be locked and which
pages are mapped. Queues are assumed to be used by one thread at a time, tokens are not NULL, every
add has at least one element, and the ring size is at most 32768.

## What the code does that its comments do not say

- A direct packed chain of exactly `num` descriptors ends where it starts, so `i < head` misses the
  lap and the avail wrap counter is wrong until the next such chain: `PackedTheorems.KickRightIff`
  says when kicks are right. `PackedNotify.FullRingStalls` gives, for every ring size, a run in which
  the kick is lost, and `PackedNotify.StalledForever` shows that no further run ends the stall.
- `SetCurrentModeExt` reports success for a mode that is not listed, as long as the list is not
  empty.
- The reuse test compares address, width, height and stride, but neither pitch nor color format, so
  a present in another format keeps the old one on screen: `ScanoutTheorems.CachedAgreesIff` is the
  exact condition, `ScanoutTheorems.StaleFormat` the run.
- The generic blit never exchanges red and blue, whatever the formats; the fast form does, but only
  into A8B8G8R8: `BlitCopy.ColoursArriveIff` is the exact condition, `BlitCopy.RotatedRedTurnsBlue` the
  pixel.
- The table of CEA modes holds video codes 1 to 127 and 193 to 219, 154 in all, but the parser looks the
  upper ones up one entry too far: `EdidTheorems.VicIndexIff`.
- The walk over CEA data blocks ends at 132 plus byte 130, four bytes past the data blocks, and may
  take what follows for a video block: `EdidSpec.CeaRoundTrip` is the exact condition,
  `EdidSpec.PhantomMode` an EDID that is given a mode it does not list.
- A command buffer whose wait times out is freed although the device may still have it:
  `BufferLife.TimeOutFreesQueued` is the run, `BufferLife.TimeOutEndsNextWait` what it leads to,
  `BufferLife.TimeOutIff` the exact condition.
- Detach and unref are queued without a wait and the pages are unlocked right after, so a host that
  serves the queue later can have a resource over unlocked pages: `ScanoutLag.ExposedIff` says for
  which calls, `ScanoutLag.ReleaseOutruns` gives the run. The cursor queue can likewise run ahead of
  the control queue: `ScanoutLag.CursorServedIff`.
- Every rebuild clears the frame the client asked to present: `ScanoutTheorems.ClearedIff`.
- A frame without an address over a segment of more than 15872 pages is refused by the control queue,
  which its caller does not notice: `SgList.SubmitFrame`.

## Model

| member | source | states |
|---|---|---|
| PackedTheorems.ExactlyOnce | VirtIO/VirtIORing-Packed.c:183-310 | In every run of adds, gets and a device that completes out of order: the tokens returned are the first completions, in completion order, and returned plus outstanding tokens are exactly the tokens added, as multisets |
| PackedTheorems.GetReturnsNext | VirtIO/VirtIORing-Packed.c:474-524 | `get_buf` returns the oldest completion not yet returned, and finds nothing exactly when all were returned |
| PackedTheorems.DrainReturnsAll | VirtIO/VirtIORing-Packed.c:474-524 | From any state between calls, repeated `get_buf` returns every completion, whatever is still with the device |
| PackedTheorems.AddFinishes | VirtIO/VirtIORing-Packed.c:183-298 | From any point of an add the driver can finish it, store by store, and the new chain is published |
| PackedTheorems.NeverBadRing | VirtIO/VirtIORing-Packed.c:491-499 | Under a conforming device neither ring-corruption check of `get_buf` can fire: the id is below `num`, is a head, and holds a token |
| PackedTheorems.IdsPartition | VirtIO/VirtIORing-Packed.c:300-310 | At every instant each id is free or in exactly one chain in flight; the free list has `num_free` distinct ids and `free_head` is below `num` even when it is empty |
| PackedTheorems.FreeListWalk | VirtIO/VirtIORing-Packed.c:196-292 | Following `next` from `free_head` visits exactly the free ids, each once, in order |
| PackedTheorems.UsedDetectedExactly | VirtIO/VirtIORing-Packed.c:342-352 | `more_used` holds iff the device has written a used element at the driver's position, despite flags left by earlier laps, skipped chain slots and zeroed slots |
| PackedTheorems.PublicationIsAtomic | VirtIO/VirtIORing-Packed.c:246-291 | Also between any two stores of an add: the device finds its next slot available iff a whole chain starts there, and then reads exactly the submitted buffers; an unfinished add is invisible |
| PackedTheorems.UsedElementStable | VirtIO/VirtIORing-Packed.c:486-489 | No step of either side changes a used element before the driver has reclaimed it, so reading id and length after the flags is safe |
| PackedTheorems.PhaseInvariant | VirtIO/VirtIORing-Packed.c:196-310 | With unbounded counters A and U: both indices are the counters modulo `num`, the AVAIL/USED pair and the used wrap counter are their lap parities, A - U = num - num_free; the avail wrap counter agrees iff the number of ring-filling direct chains is even |
| PackedTheorems.NoLostInterrupt | VirtIO/VirtIORing-Packed.c:354-399 | Once `enable_cb` reported nothing waiting, or `get_buf` found nothing with callbacks on, the next completion the device checks for raises an interrupt, in every interleaving, with and without event suppression |
| PackedTheorems.Arming | VirtIO/VirtIORing-Packed.c:366-399 | Of the two looks that can arm the driver, the one ending `enable_cb` leaves it armed iff it finds nothing, that of `get_buf` iff it finds nothing with callbacks enabled |
| PackedTheorems.DisabledIsQuiet | VirtIO/VirtIORing-Packed.c:332-340 | While callbacks are disabled the device's check raises no interrupt, and `disable_cb` disables them |
| PackedTheorems.TableHoldsMeans | VirtIO/VirtIORing-Packed.c:203-209 | The indirect page `add_buf` has filled means the submitted list |
| PackedTheorems.KickByFlags | VirtIO/VirtIORing-Packed.c:557-563 | Without descriptor events a kick notifies exactly unless the device refuses notifications |
| PackedTheorems.KickIsExact | VirtIO/VirtIORing-Packed.c:532-575 | With descriptor events, for every event position and any count of slots since the last kick: the decision compares 16-bit distances from the position the driver takes the event for, a lap off when its wrap counter is |
| PackedTheorems.KickRightIff | VirtIO/VirtIORing-Packed.c:532-575 | For every event position within a ring length of the available one, the decision is true exactly for the slots published since the last kick, if and only if none were, or the 16-bit count fits and the number of direct chains of exactly `num` descriptors so far is even; the count fits for at most `num` slots |
| PackedNotify.NoLostKick | VirtIO/VirtIORing-Packed.c:532-575 | In every interleaving of adds, kicks and a device that asks, rechecks and sleeps: once the driver has kicked for all it added, a device asleep over a chain has been notified, unless the wrap counter is a lap off or a kick came after 2^16 slots or more |
| PackedNotify.KickWakesIff | VirtIO/VirtIORing-Packed.c:532-575 | A kick over a new chain wakes a sleeping device iff the 16-bit count reaches back to the position the driver takes the asked one for; for at most `num` slots, iff the number of ring-filling direct chains is even |
| PackedNotify.FullRingStalls | VirtIO/VirtIORing-Packed.c:263-271 | On a ring of any size, one direct chain that fills it, added under a device asleep at position 0, reaches a state in which driver and device wait for each other |
| PackedNotify.StalledForever | VirtIO/VirtIORing-Packed.c:263-271 | From such a state no run of driver and device moves leads out |
| PackedNotify.ReachedReachable | VirtIO/VirtIORing-Packed.c:183-575 | Every run with kicks and a sleeping device is a run of the ring protocol, so everything proved of the ring holds there |
| PackedTheorems.EventPosition | VirtIO/VirtIORing-Packed.c:563-571 | Among the last `num` positions there is one with a given offset and wrap counter, and it is the one the source computes |
| PackedProofs.WalkReads | VirtIO/VirtIORing-Packed.c:236-262 | The device's walk over a published chain yields its id, its slot count and the submitted list |
| PackedProofs.DirectBuildsChain | VirtIO/VirtIORing-Packed.c:225-262 | All stores of a direct add, across the ring end too, leave the chain that was submitted |
| PackedProofs.IndirectBuildsChain | VirtIO/VirtIORing-Packed.c:203-217 | The stores of an indirect add leave a descriptor for a table that means the submitted list |
| PackedProofs.DirectStoresHide | VirtIO/VirtIORing-Packed.c:246-291 | No store of a direct add before the last touches the head's flags or a slot outside the new chain |
| PackedQueue.Virtqueue.constructor | VirtIO/VirtIORing-Packed.c:586-625 | A fresh queue: all ids free in order, counters zero, flags of the first lap |
| PackedQueue.Virtqueue.AddBuf | VirtIO/VirtIORing-Packed.c:183-298 | The whole new state and the ordered list of ring stores for direct and indirect chains; refused, with nothing changed, exactly when there is no room |
| PackedQueue.Virtqueue.DetachBuf | VirtIO/VirtIORing-Packed.c:300-310 | The chain returns to the front of the free list |
| PackedQueue.Virtqueue.GetBuf | VirtIO/VirtIORing-Packed.c:474-524 | Empty, bad-ring and delivery cases exactly; the token and length delivered, the ids freed, the position moved, the event offset updated; any content of the slot is handled |
| PackedQueue.Virtqueue.MoreUsed | VirtIO/VirtIORing-Packed.c:342-352 | The used test on the slot at the driver's position |
| PackedQueue.Virtqueue.DetachUnusedBuf | VirtIO/VirtIORing-Packed.c:312-330 | Pulls back the token of the smallest head in flight; NULL iff none is in flight, and then every id is free |
| PackedQueue.Virtqueue.DisableCb | VirtIO/VirtIORing-Packed.c:332-340 | Shadow and shared flags say disabled |
| PackedQueue.Virtqueue.EnableCb | VirtIO/VirtIORing-Packed.c:366-399 | Event offset, then flags, then the recheck; true iff nothing is waiting |
| PackedQueue.Virtqueue.KickPrepare | VirtIO/VirtIORing-Packed.c:532-575 | The decision function on counter, suppression area and wrap counter; resets the count |
| FlagWord.WordOps | VirtIO/VirtIORing-Packed.c:205-262 | Setting, toggling, clearing and testing flag bits of the 16-bit word are the operations of the record the model uses |
| RingMath.NeedEventIsRange | VirtIO/VirtIORing-Packed.c:110-118 | `vring_need_event` holds iff the event index lies in the half-open range from old to new modulo 2^16 |
| RingMath.PowerOfTwoTest | VirtIO/VirtIORing.c:497-500 | The creation test accepts exactly the powers of two |
| RingMath.MaskedIndexIsSlot | VirtIO/VirtIORing.c:297-298 | Masking the truncated index gives the unbounded position's slot, because the ring size divides 2^16 |
| SplitTheorems.ExactlyOnce | VirtIO/VirtIORing.c:230-345 | As for the packed ring: no token lost, duplicated or invented in any run |
| SplitTheorems.GetReturnsNext | VirtIO/VirtIORing.c:307-345 | `get_buf` returns the oldest completion not yet returned, and nothing when there is none |
| SplitTheorems.DrainReturnsAll | VirtIO/VirtIORing.c:307-345 | Repeated `get_buf` returns every completion |
| SplitTheorems.NeverOutOfRange | VirtIO/VirtIORing.c:324-330 | Under a conforming device the range check never fires and the token is never NULL |
| SplitTheorems.DescriptorsPartition | VirtIO/VirtIORing.c:201-227 | At every instant each descriptor is free or in exactly one chain in flight; the free list has `num_unused` distinct descriptors |
| SplitTheorems.FreeListWalk | VirtIO/VirtIORing.c:201-210 | Following `next` from `first_unused` visits exactly the free descriptors |
| SplitTheorems.ReclaimWalk | VirtIO/VirtIORing.c:212-227 | The reclaim walk over NEXT flags ends, at the end of the chain that was submitted, and counts its length |
| SplitTheorems.AddThenPullBack | VirtIO/VirtIORing.c:455-470 | Pulling back a chain just added restores ownership, tokens, head and count |
| SplitTheorems.SubmissionPreserved | VirtIO/VirtIORing.c:243-304 | At every instant of every run the device reads each chain in flight exactly as submitted |
| SplitTheorems.AddMeaning | VirtIO/VirtIORing.c:243-304 | The published head denotes the submitted list in order, WRITE exactly from position `out`, whether direct or indirect, and no other head changes its meaning |
| SplitTheorems.TableHoldsIsTableOf | VirtIO/VirtIORing.c:247-257 | What the loop leaves in the indirect page is the table the device is assumed to read |
| SplitTheorems.AddFinishes | VirtIO/VirtIORing.c:243-304 | From any point of an add the driver can finish it and the new chain is published |
| SplitTheorems.OutstandingCount | VirtIO/VirtIORing.c:315-337 | (avail idx - last_used) mod 2^16 is the number of buffers in flight, at most `num`, through every 16-bit wrap |
| SplitTheorems.AddSparesUnread | VirtIO/VirtIORing.c:297-301 | The available-ring slot an add writes differs from every slot the device has still to read |
| SplitTheorems.PublicationIsAtomic | VirtIO/VirtIORing.c:296-301 | The device can fetch iff a published head is unread, never because of a half-written one, and reads what was submitted under it |
| SplitTheorems.NoLostInterrupt | VirtIO/VirtIORing.c:307-399 | As for the packed ring, with event index and with the interrupt flag |
| SplitTheorems.Arming | VirtIO/VirtIORing.c:307-399 | Of the two looks that can arm the driver, the one ending `enable_cb` leaves it armed iff it finds nothing, that of `get_buf` iff it finds nothing with callbacks enabled |
| SplitTheorems.DisabledIsQuiet | VirtIO/VirtIORing.c:423-432 | Without event index a driver with callbacks disabled is not interrupted, and `disable_cb` disables them |
| SplitTheorems.KickByFlags | VirtIO/VirtIORing.c:368-372 | Without event index a kick notifies exactly unless the device refuses notifications |
| SplitTheorems.KickIsExact | VirtIO/VirtIORing.c:355-373 | With event indices the kick decision is true iff one of the adds since the last kick crossed the event index, also for 2^16 adds or more |
| SplitNotify.NoLostKick | VirtIO/VirtIORing.c:355-373 | In every interleaving of adds, kicks and a device that asks, rechecks and sleeps, with event indices or flags: once the driver has kicked for all it added, a device asleep over a buffer has been notified |
| SplitNotify.KickWakesIff | VirtIO/VirtIORing.c:355-373 | With event indices a kick wakes a sleeping device iff there is something to fetch or 2^16 adds or more were counted |
| SplitQueue.Virtqueue.New | VirtIO/VirtIORing.c:486-529 | NULL iff the size is not a power of two; otherwise a queue with all descriptors free |
| SplitQueue.Virtqueue.FromZeroed | VirtIO/VirtIORing.c:509-515 | The free list threaded through a zeroed table |
| SplitQueue.Virtqueue.GetUnusedDesc | VirtIO/VirtIORing.c:201-210 | Pops the head of the free list |
| SplitQueue.Virtqueue.PutUnusedDescChain | VirtIO/VirtIORing.c:212-227 | The loop computes the reclaim function of the whole chain |
| SplitQueue.Virtqueue.AddBuf | VirtIO/VirtIORing.c:230-304 | Whole new table, tokens, ring and index for both encodings; refused, unchanged, exactly when there is no room |
| SplitQueue.Virtqueue.WriteDirect | VirtIO/VirtIORing.c:262-294 | The loop over elements leaves the chain with its end cleared |
| SplitQueue.Virtqueue.FillTable | VirtIO/VirtIORing.c:247-257 | The loop over the indirect page leaves the chained table |
| SplitQueue.Virtqueue.GetBuf | VirtIO/VirtIORing.c:307-345 | Empty, skipped and delivered cases, with the whole new state |
| SplitQueue.Virtqueue.DetachUnusedBuf | VirtIO/VirtIORing.c:455-470 | Pulls back the smallest head in flight and steps the index back |
| SplitQueue.Virtqueue.DrainUnused | VirtIO/VirtIORing.c:455-470 | Repeated detaching returns every remaining token exactly once and ends with all descriptors unused and avail idx equal to last_used |
| SplitQueue.Virtqueue.DisableCb | VirtIO/VirtIORing.c:423-432 | Master and shared flag |
| SplitQueue.Virtqueue.EnableCb | VirtIO/VirtIORing.c:386-399 | Flag, event index, recheck; true iff nothing is waiting |
| SplitQueue.Virtqueue.KickPrepare | VirtIO/VirtIORing.c:355-373 | The decision function on index, count, event index and flag; resets the count |
| ScanoutTheorems.TrafficAccepted | IntelVirtDisplayKMD/viogpulite.cpp:1257-1413 | In every run, at every instant, the host accepts the traffic: each id follows (create, use*, detach, unref)*, is recycled only after unref, and no page is unlocked under an attached resource |
| ScanoutTheorems.LiveObjects | IntelVirtDisplayKMD/viogpulite.cpp:1257-1308 | Live front and cursor objects have pairwise distinct non-zero ids, usable at the host, each over locked pages |
| ScanoutTheorems.IdsSuffice | IntelVirtDisplayKMD/viogpu_idr.cpp:78-89 | The allocator never runs out: the next id is between 1 and 9 |
| ScanoutTheorems.ExitLeavesNothing | IntelVirtDisplayKMD/viogpulite.cpp:438-458 | Leaving D0 takes every resource back from the host and unlocks every page |
| ScanoutLag.ExposedIff | IntelVirtDisplayKMD/viogpulite.cpp:287-315 | A step can unlock pages under a resource that a late host, even one that had served everything before it, still has attached iff it releases a screen that shows something, rebuilds over other pages while something is shown, or leaves D0 with an object alive |
| ScanoutLag.ReleaseOutruns | IntelVirtDisplayKMD/viogpulite.cpp:301-311 | On every started adapter: set a mode, let its flush complete, release |
| ScanoutLag.DetachesServed | IntelVirtDisplayKMD/viogpulite.cpp:1264-1280 | In every run, a host that has served every detach never has a resource over pages unlocked since, however far behind it is |
| ScanoutLag.DestroyScreenSends | IntelVirtDisplayKMD/viogpulite.cpp:1298-1308 | One screen of the teardown: detach and unref of the front and a reset of the first scanout if there is a front, then detach and unref of the cursor |
| ScanoutLag.CursorServedIff | IntelVirtDisplayKMD/viogpulite.cpp:762-807 | While the control queue has been served up to some point, the resource named by a new pointer shape's command on the cursor queue is a live cursor iff its creation was served, or still the old cursor, not yet detached, whose id it got |
| ScanoutTheorems.PresentShowsRequest | IntelVirtDisplayKMD/viogpulite.cpp:249-280 | Whenever a request past the gate reaches the host, what it shows was built from exactly the requested address, width, height and stride, reused or rebuilt, after failed creations and forced recovery too |
| ScanoutTheorems.CachedAgreesIff | IntelVirtDisplayKMD/viogpulite.cpp:257-280 | Reusing the resource shows the same memory in the same way as rebuilding iff this request is rebuilt anyway or pixel format and pages agree: the page count for a client address, and for a NULL address a segment that is large enough |
| ScanoutTheorems.ClearedIff | IntelVirtDisplayKMD/viogpulite.cpp:1389-1394 | A rebuild clears the client's pixels before the host is flushed, a reuse does not: the request clears them iff the backing changed |
| ScanoutTheorems.StaleFormat | IntelVirtDisplayKMD/viogpulite.cpp:249-280 | On every started adapter: set a mode in one format, let its flush complete, present the same frame in another; the request is answered by a flush and the host still shows the first format, where a rebuild would show the second |
| ScanoutTheorems.RequestIsTwoSteps | IntelVirtDisplayKMD/viogpulite.cpp:173-285 | A request that no completion interrupts is its gate followed by the rebuild or flush |
| ScanoutOutcomes.DroppedIff | IntelVirtDisplayKMD/viogpulite.cpp:193-247 | In every run: a listed request is dropped iff it sets no mode, a flush is pending and at most 58 requests before it were dropped in a row, so a mode set never is; nothing is sent at the gate, and an unlisted request changes nothing |
| ScanoutOutcomes.RecoveryRebuilds | IntelVirtDisplayKMD/viogpulite.cpp:240-247 | A request at an address that is let through with a flush pending, and sets no mode, is never answered by reuse, whatever completes in between |
| ScanoutOutcomes.ReusedIff | IntelVirtDisplayKMD/viogpulite.cpp:249-280 | A request past the gate is answered by reuse iff there is a front, the remembered address is the requested one, and the host shows an image of the requested width, height and stride |
| ScanoutOutcomes.FailedIff | IntelVirtDisplayKMD/viogpulite.cpp:1359-1384 | It fails iff it is not reused and its pages cannot be locked, or without an address there is no segment |
| ScanoutOutcomes.LockedPages | IntelVirtDisplayKMD/viogpulite.cpp:1345-1367 | The pages locked for a rebuilt request hold pitch times height bytes, and one page fewer would not |
| ScanoutOutcomes.FlushReachesHost | IntelVirtDisplayKMD/viogpulite.cpp:1311-1333 | Every request past the gate that does not fail ends with exactly one counted flush, of the resource the host then shows on its screen; one that fails sends and counts none |
| ScanoutOutcomes.BlackOutFlushes | IntelVirtDisplayKMD/viogpulite.cpp:729-760 | Black-out of a screen that shows something is a transfer and one counted flush of what the host shows there; of any other nothing |
| ScanoutOutcomes.CursorPointed | IntelVirtDisplayKMD/viogpulite.cpp:762-807 | A new pointer shape, or a move, points the host at a live resource over the screen's own pointer pages, 128 by 128 over sixteen pages |
| ScanoutOutcomes.ReleaseHides | IntelVirtDisplayKMD/viogpulite.cpp:301-321 | A release has the host show nothing on the screen from its first command on, while the resource is attached and its pages locked, and forgets identity and counters |
| ScanoutOutcomes.CounterMoves | IntelVirtDisplayKMD/viogpulite.cpp:1197-1212 | Step by step the flush counter follows flushes sent less completions handled, but for a release and a request let through, which clear it, and a completion that finds it clear |
| ScanoutTheorems.CounterBounded | IntelVirtDisplayKMD/viogpulite.cpp:212-247 | 0 <= m_FlushCount <= flushes sent - flush completions handled, so it is 0 once all are answered, with late and lost completions, and with the DPC running while a request is under way |
| ScanoutTheorems.NeverSixtyDrops | IntelVirtDisplayKMD/viogpulite.h:105 | Of any sixty listed requests in a row on a screen at least one is not dropped |
| ScanoutTheorems.StallIsDrops | IntelVirtDisplayKMD/viogpulite.cpp:231-247 | While something is shown or pending the stall counter is the number of frames just dropped, below the limit |
| HostTrace.AcceptedLifecycle | IntelVirtDisplayKMD/viogpulite.cpp:1264-1308 | Any log the host accepts is, id by id, a prefix of (create, use*, detach, unref)* |
| IdAllocator.Idr.Init | IntelVirtDisplayKMD/viogpu_idr.cpp:48-66 | Exactly the ids below the start are reserved |
| IdAllocator.Idr.GetId | IntelVirtDisplayKMD/viogpu_idr.cpp:78-89 | Returns and sets the lowest clear bit, or fails and changes nothing |
| IdAllocator.Idr.PutId | IntelVirtDisplayKMD/viogpu_idr.cpp:91-104 | Clears that bit only |
| ScanoutAdapter.VioGpuAdapterLite.HWInit | IntelVirtDisplayKMD/viogpulite.cpp:558-620 | The started adapter |
| ScanoutAdapter.VioGpuAdapterLite.SetCurrentModeExt | IntelVirtDisplayKMD/viogpulite.cpp:173-285 | The search loop and everything after it compute the mode step; the status only says that the mode list is not empty |
| ScanoutAdapter.VioGpuAdapterLite.CheckBackpressure | IntelVirtDisplayKMD/viogpulite.cpp:212-247 | Clears stale counts, counts a drop, or gives up waiting |
| ScanoutAdapter.VioGpuAdapterLite.CreateFrameBufferObj | IntelVirtDisplayKMD/viogpulite.cpp:1339-1413 | Id, segment, resource, scanout, flush, in that order; a failure gives the id back |
| ScanoutAdapter.VioGpuAdapterLite.FlushFrameBufferObj | IntelVirtDisplayKMD/viogpulite.cpp:1311-1337 | Counts and sends one flush of the front |
| ScanoutAdapter.VioGpuAdapterLite.DestroyFrameBufferObj | IntelVirtDisplayKMD/viogpulite.cpp:1264-1280 | Takes the object out, then detach, unref, and the id back |
| ScanoutAdapter.VioGpuAdapterLite.DestroyCursor | IntelVirtDisplayKMD/viogpulite.cpp:1282-1296 | The same for the cursor |
| ScanoutAdapter.VioGpuAdapterLite.InitExt | IntelVirtDisplayKMD/viogpu_queue.cpp:925-991 | Closes what was there, then locks user pages if they can be locked |
| ScanoutAdapter.VioGpuAdapterLite.ReleaseFrameBuffer | IntelVirtDisplayKMD/viogpulite.cpp:287-332 | The release step; false and unchanged for a bad screen |
| ScanoutAdapter.VioGpuAdapterLite.BlackOutScreen | IntelVirtDisplayKMD/viogpulite.cpp:729-760 | Transfer and a counted flush of the front, if there is one |
| ScanoutAdapter.VioGpuAdapterLite.FlushCompleted | IntelVirtDisplayKMD/viogpulite.cpp:1197-1212 | Counts one completion down, never below zero; a bad screen number is ignored |
| ScanoutAdapter.VioGpuAdapterLite.SetPointerShape | IntelVirtDisplayKMD/viogpulite.cpp:762-807 | Old cursor destroyed before the new one is created |
| ScanoutAdapter.VioGpuAdapterLite.DestroyFrameBufferCursorObjExt | IntelVirtDisplayKMD/viogpulite.cpp:1298-1308 | Every screen's front and cursor |
| ScanoutAdapter.VioGpuAdapterLite.HWClose | IntelVirtDisplayKMD/viogpulite.cpp:624-653 | Every open segment |
| SgList.ValidatedFrame | IntelVirtDisplayKMD/IoctlValidation.cpp:97-138 | A frame that passes validation has between 1 and 8100 pages, and its sizes fit 32 bits |
| SgList.AcceptedIff | IntelVirtDisplayKMD/IoctlValidation.cpp:97-138 | Exactly which frames pass, bound by bound |
| SgList.OrdinaryAccepted | IntelVirtDisplayKMD/IoctlValidation.cpp:97-138 | Every frame up to 3840 by 2160 in a supported format, with pitch four times a stride between its width and 3840, passes |
| SgList.FramePages | IntelVirtDisplayKMD/viogpu_queue.cpp:925-990 | The pages of a frame at an address hold its pitch times height bytes, and one page fewer would not |
| SgList.ValidatedFrameFits | IntelVirtDisplayKMD/viogpu_queue.cpp:307-338 | The create-blob command of a validated frame at an address uses at most 34 of the 64 scatter-gather elements, whichever pages resolve; that of a frame without an address, which names the whole segment, fits iff that has at most 15872 mapped pages |
| SgList.QueueBuffer | IntelVirtDisplayKMD/viogpu_queue.cpp:555-614 | Refused exactly when a part exceeds a page or the list overflows; otherwise the device is handed, through the page map, exactly command then data to read and the response area to write |
| SgList.GatherData | IntelVirtDisplayKMD/viogpu_queue.cpp:576-592 | The page-by-page loop: full exactly when the pages do not fit, otherwise exactly the data's bytes in order |
| SgList.SubmitFrame | IntelVirtDisplayKMD/viogpulite.cpp:1494-1527 | From validated frame to queued command: never refused for a frame at an address, refused for one without iff the segment has more than 15872 mapped pages; otherwise the device reads the 56 bytes of the command and 16 bytes per entry and writes the 24 bytes after the command, which share no byte with it |
| SgList.BuildPageList | IntelVirtDisplayKMD/viogpu_queue.cpp:974-987 | The page list loop stops at the first unmapped page |
| SgList.EntriesCover | IntelVirtDisplayKMD/viogpu_queue.cpp:974-987 | With every page mapped, the entries are the frame's memory, byte for byte |
| SgList.BlobSizeIff | IntelVirtDisplayKMD/viogpu_queue.cpp:329-330 | With pitch = 4 * stride the announced size equals the sum of entry lengths iff every page is mapped |
| BufferPool.VioGpuBuf.Init | IntelVirtDisplayKMD/viogpu_queue.cpp:637-675 | All buffers free, in order |
| BufferPool.VioGpuBuf.GetBuf | IntelVirtDisplayKMD/viogpu_queue.cpp:723-757 | Takes the oldest free buffer into use and sets its sizes; fails exactly when none is free |
| BufferPool.VioGpuBuf.FreeBuf | IntelVirtDisplayKMD/viogpu_queue.cpp:760-797 | Moves the buffer from the list in use to the end of the free list and drops what hangs off it |
| BufferPool.VioGpuBuf.Search | IntelVirtDisplayKMD/viogpu_queue.cpp:766-782 | The walk over the circular list ends at the buffer, which is on it |
| BufferPool.VioGpuBuf.Close | IntelVirtDisplayKMD/viogpu_queue.cpp:677-720 | Deletes every buffer exactly once |
| BufferPool.EveryBuffer | IntelVirtDisplayKMD/viogpu_queue.cpp:637-797 | Each buffer is always in exactly one of the two lists |
| BufferLife.ReturnedExactlyOnce | IntelVirtDisplayKMD/viogpulite.cpp:1181-1230 | Threads sharing events under the screen mutex, a device, and a DPC that consumes completions, no wait ending early: a waiter goes on only when the DPC has handled its own buffer, and every buffer goes through taken, sent, handled, returned in this order, returned by the DPC if it carries no event and by its waiter otherwise |
| BufferLife.QuiescentAllFree | IntelVirtDisplayKMD/viogpulite.cpp:1181-1230 | With every thread idle and nothing with device or DPC, every buffer is free |
| BufferLife.SafeIff | IntelVirtDisplayKMD/viogpu_queue.cpp:448-495 | From a state of the invariant, waiters go on only for their own buffers in every further run without a new event or an early end of a wait iff no two threads have an unhandled buffer on the same event |
| BufferLife.SharedEventFreesQueued | IntelVirtDisplayKMD/viogpu_queue.cpp:476-494 | Without the mutex: two threads share an event, and a buffer is freed while the device still has it |
| BufferLife.TimeOutIff | IntelVirtDisplayKMD/viogpu_queue.cpp:483-494 | A wait under the mutex times out: from then on, with every further step keeping to the rules, no buffer is reused too soon and no waiter wakes for another's iff the DPC had handled the buffer |
| BufferLife.TimeOutFreesQueued | IntelVirtDisplayKMD/viogpu_queue.cpp:483-494 | One thread, the mutex held throughout: its wait times out and its buffer is free while the device still has it |
| BufferLife.TimeOutEndsNextWait | IntelVirtDisplayKMD/viogpulite.cpp:1197-1212 | And then its next wait is ended by the completion of the command that timed out |
| BlitCopy.BltBits | IntelVirtDisplayKMD/bitops.cpp:161-170 | The destination becomes exactly the blit of the source, for any two rotations |
| BlitCopy.CopyBitsGeneric | IntelVirtDisplayKMD/bitops.cpp:68-111 | The pixel-by-pixel loops compute the blit for all sixteen pairs of rotations |
| BlitCopy.CopyBits32 | IntelVirtDisplayKMD/bitops.cpp:115-159 | The row-by-row form computes it for unrotated surfaces, with red and blue exchanged where the formats say so |
| BlitCopy.FormsAgreeIff | IntelVirtDisplayKMD/bitops.cpp:161-170 | Both forms leave the same memory iff no exchange was due or no copied pixel shows one |
| BlitCopy.ColoursArriveIff | IntelVirtDisplayKMD/bitops.cpp:115-170 | Red and blue of every copied pixel arrive where the two formats have them iff the formats are alike, or the destination is A8B8G8R8 and both surfaces are unrotated, or red equals blue in every copied pixel; green and alpha always arrive |
| BlitCopy.FormatsHonouredIff | IntelVirtDisplayKMD/bitops.cpp:161-170 | The entry point gives what the pair of formats asks for iff no exchange is due, or both surfaces are unrotated, or no copied pixel shows one |
| BlitCopy.RotatedRedTurnsBlue | IntelVirtDisplayKMD/bitops.cpp:161-170 | One red pixel copied to a rotated surface of the other format arrives as blue |
| BlitCopy.BulkRow | IntelVirtDisplayKMD/bitops.cpp:139-145 | A bulk copy of a row is that row pixel by pixel |
| BlitSpec.BlitMovesPixels | IntelVirtDisplayKMD/bitops.cpp:68-111 | Every logical pixel of every rectangle arrives, byte by byte |
| BlitSpec.BlitKeepsRest | IntelVirtDisplayKMD/bitops.cpp:68-111 | No byte outside the rectangles changes |
| BlitSpec.SourceAddress | IntelVirtDisplayKMD/bitops.cpp:9-66 | Row start plus row and pixel pitches is the address of the pixel the rotation means |
| BlitSpec.RotationPlaces | IntelVirtDisplayKMD/bitops.cpp:38-66 | The byte address of a logical pixel under each rotation, as the source lays it out |
| BlitSpec.AddressInjective | IntelVirtDisplayKMD/bitops.cpp:38-66 | Distinct in-frame pixels occupy distinct bytes |
| EdidParser.ParseEdid | EDIDParser/edidparser.c:43-64 | Fails, adding nothing, iff header or a checksum is wrong; otherwise the list becomes the first 32 of what it held followed by everything the EDID lists, in order |
| EdidParser.ValidateChecksum | EDIDParser/edidparser.c:96-116 | True iff both 128-byte blocks sum to zero modulo 256 |
| EdidParser.GetTimingBitmapModes | EDIDParser/edidparser.c:275-311 | Appends the bitmap modes |
| EdidParser.GetStandardModes | EDIDParser/edidparser.c:221-258 | Appends the standard modes |
| EdidParser.GetCeaModes | EDIDParser/edidparser.c:134-203 | Appends the modes of the first video block, if any |
| EdidParser.FindVideoBlock | EDIDParser/edidparser.c:156-202 | The block walk ends and finds the first video block |
| EdidParser.GetDetailedModes | EDIDParser/edidparser.c:409-442 | Appends the four detailed timings |
| EdidParser.GetAdditionalModes | EDIDParser/edidparser.c:329-391 | Appends the modes of the first additional-timings descriptor |
| EdidParser.OutputModelist.AddMode | EDIDParser/edidparser.c:13-25 | Appends unless 32 modes are there |
| EdidSpec.DetailedRoundTrip | EDIDParser/edidparser.c:420-437 | Any 12-bit active and blank values with a clock, encoded as a descriptor, decode to the same size and the floored refresh, with no 32-bit overflow |
| EdidSpec.BitmapRoundTrip | EDIDParser/edidparser.c:283-311 | Any choice of the seventeen bitmap timings packed into three bytes is read back |
| EdidSpec.SelectedCount | EDIDParser/edidparser.c:283-311 | A mode is listed exactly as often as set bits stand for it |
| EdidSpec.StandardRoundTrip | EDIDParser/edidparser.c:229-257 | Every width, ratio and refresh a standard timing can express is read back, with the tallest height in that proportion, except exactly the pair of bytes that marks an unused slot |
| EdidSpec.AdditionalRoundTrip | EDIDParser/edidparser.c:329-391 | Any choice of the 44 additional timings packed into six bytes is read back |
| EdidSpec.CeaRoundTrip | EDIDParser/edidparser.c:134-203 | An extension holding encoded data blocks lists exactly the modes of its first video block iff it has one, or the walk over the four bytes after the blocks meets no video tag with a table entry |
| EdidSpec.PhantomMode | EDIDParser/edidparser.c:134-203 | An EDID with valid header and checksums and no data block is given a mode it does not list |
| EdidTheorems.EdidRoundTrip | EDIDParser/edidparser.c:43-64 | An EDID written field by field, seventeen established timings, eight standard slots, data blocks, four descriptors and 44 additional timings, is read back whole and in this order |
| EdidTheorems.VicIndexIff | EDIDParser/edidparser.c:171-196 | A video code finds its own table entry iff it is not one of 193 to 219; each of 193 to 218 is given the next code's mode, 219 none, and the entry of 193 is never used |
| EdidTheorems.PositionsFill | EDIDParser/edidparser.h:97-128 | Codes 1 to 127 and 193 to 219 fill the 154 entries of the table, one each |
| EdidTheorems.CodeListed | EDIDParser/edidparser.c:171-196 | What each byte of a video block adds, with and without the native bit |
| EdidTheorems.CodesInOrder | EDIDParser/edidparser.c:169-198 | Codes are listed in their order |
| EdidTheorems.SelectedInOrder | EDIDParser/edidparser.c:283-311 | Table entries are selected one by one and listed in table order |
| EdidTheorems.OneByteCaught | EDIDParser/edidparser.c:96-116 | No change of a single byte passes the checksums |
| EdidTheorems.HeaderIff | EDIDParser/edidparser.c:79 | The header test, byte by byte |
| EdidTheorems.FirstKept | EDIDParser/edidparser.c:13-25 | Of everything listed the first 32 are kept |
| ConfigSnapshot.ReadMany | VirtIO/VirtIOPCICommon.c:131-145 | On a transport with a generation counter and fewer than 256 changes per pass, the buffer ends equal to the configuration at a single instant during the call |
| ConfigSnapshot.AcceptedPass | VirtIO/VirtIOPCICommon.c:131-145 | A pass is accepted iff the number of changes it saw is a multiple of 256, hence iff there were none |
| ConfigSnapshot.ReadPass | VirtIO/VirtIOPCICommon.c:138-140 | One pass over the fields reads one version if no change fell between its accesses |
| ConfigSnapshot.TornUnnoticedIff | VirtIO/VirtIOPCICommon.c:131-145 | Changes between two reads tear the snapshot unnoticed iff there is no counter or it wrapped exactly |

## Left out

- PackedProtocol and SplitProtocol: memory is sequentially consistent and each store is atomic; what weaker memory would do beyond the barriers is not modelled.
- `virtqueue_enable_cb_delayed` of both layouts: its threshold is a heuristic, and the split return value is compared in int.
- `virtqueue_is_interrupt_enabled_packed`: its polarity is the opposite of the split one; the shadow flags are used directly.
- PackedQueue.Virtqueue.AddBuf: the indirect memory has room for the elements, and there are fewer than 2^16 of them; with more, the source's 16-bit loop index never reaches the end.
- SplitQueue.Virtqueue.AddBuf: likewise; the source stores the link of an element in 16 bits.
- SplitQueue.Virtqueue.FillTable: likewise.
- SplitQueue.Virtqueue.GetBuf: requires a used id below `num` to be the head of a buffer in flight, as a conforming device ensures; the source checks only the range. After an id out of range only the state change is stated, not the queue invariant.
- PackedNotify.NoLostKick: the device reads its own event area and the ring in one step when it goes to sleep, and writes the area only while awake.
- SplitTheorems.KickIsExact: the count of adds since the last kick is unbounded here and 32 bits wide in the source.
- SplitNotify.NoLostKick: likewise, and the device as for the packed ring.
- PackedTheorems.NoLostInterrupt: speaks of interrupts raised by the device's check; delivery by the platform is outside.
- SplitTheorems.NoLostInterrupt: likewise.
- `virtqueue_shutdown`, `kick_always` and the size functions: they re-create the queue, notify, and compute sizes.
- ScanoutModel.SetCurrentMode: the blob path only, and pool allocations, the memory entries included, succeed; locking user pages may fail.
- ScanoutTheorems.CounterBounded: increment and decrement of the counter are each atomic.
- ScanoutTheorems.CachedAgreesIff: compares the memory shown, not its content; that a rebuild clears it is `ScanoutTheorems.ClearedIff`. Every page of a locked segment is mapped, and commands are not refused by the queue.
- ScanoutLag.ExposedIff: the host serves the control queue in order; what a host does with unlocked pages is outside.
- ScanoutTheorems.NeverSixtyDrops: counts requests, not time.
- ScanoutModel.Backpressure: per-screen event objects and the bounded wait inside a flush are part of `BufferLife`; a lost completion is one that never comes.
- ScanoutAdapter.VioGpuAdapterLite.HWInit: segments are given as already allocated; mode lists are parameters that hot plug may replace. Requests arrive only while the device is in D0.
- ScanoutModel.DestroyAll: the back slot of a screen is never assigned by the source and is not modelled.
- ScanoutAdapter.VioGpuAdapterLite.CreateFrameBufferObj: allocations succeed, the non-blob path is not modelled.
- ScanoutAdapter.VioGpuAdapterLite.FlushFrameBufferObj: the wait inside the flush is part of `BufferLife`; the non-blob upload is not modelled.
- ScanoutAdapter.VioGpuAdapterLite.InitExt: allocating the memory descriptor list and the entry list succeeds; locking the pages may fail.
- ScanoutAdapter.VioGpuAdapterLite.BlackOutScreen: the zeroing of the frame memory is not modelled.
- ScanoutAdapter.VioGpuAdapterLite.SetPointerShape: the copy of the pointer pixels and its failure paths are not modelled.
- ScanoutAdapter.VioGpuAdapterLite.HWClose: stopping the worker thread is not modelled.
- SgList.GatherData: data is page-aligned or lies within one page, as the pool allocator gives it.
- SgList.QueueBuffer: buffers lie in mapped non-paged pool memory, small ones within a page and large ones page-aligned; on an unmapped page the source's loop would not end. What the queue does with the list is the virtqueue part.
- BufferPool.VioGpuBuf.FreeBuf: the buffer is on the list in use; otherwise the source's search would not end. List nodes are indices into link arrays rather than addresses.
- BufferPool.VioGpuBuf.Search: the same.
- BufferPool.VioGpuBuf.Init: allocations succeed.
- BufferLife.ReturnedExactlyOnce: no wait ends before the DPC has handled the buffer, which is what `BufferLife.TimeOutIff` is about, and no submission is refused.
- BufferLife.TimeOutIff: a buffer sent again while the device still has it counts once in the model.
- BlitCopy.BltBits: 32-bit pixels, distinct source and destination memory, in-frame rectangles, and surfaces smaller than 4 GB, so that no pointer offset wraps; exception handling around the copy is outside.
- EdidParser.ParseEdid: the three mode tables are parameters of the source's sizes, and refresh rates are exact; two loop guards of the source that can never fire are dropped.
- ConfigSnapshot.ReadMany: the device changes finitely often, so that the loop ends; with 256 changes in a pass the promise fails, as `ConfigSnapshot.TornUnnoticedIff` shows.
- PCI, BAR and register access, WDF callbacks and request dispatch, tracing, IRQL rules and timeouts: plumbing over operating-system interfaces.
- The user-mode driver, the enabler and the installer: foreign calls and user interface.
