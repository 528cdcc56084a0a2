# A verified model of the netmap Xen network path

The repository connects a guest to a VALE bridge through memory that the guest and the driver domain share.
This project models its four working parts in Dafny and proves what they keep.

**Shared rings and kicks.** `ReceivePath` and `TransmitPath` (with `Staging`) are classes with the fields, cursors and loops of
the guest's two sync functions and of the backend's. The guest's receive sync takes no lock, so interrupts, the
bridge and the backend may run between any two of its accesses; `Interfere` stands for any number of such steps.
A ghost history of all packets states what the cursors mean. `KickProtocol` is the state machine of the four
kick flags, the two event channels, the interrupt handlers, the backend's thread and the bridge's callback,
one step per access to a shared flag.

**Grant and map pipeline.** `Pages`, `GrantTransfer`, `GuestMapping`, `GrantLifetime`, `RingRefs` and `HandOver`
follow one set-up from the slots' buffer pages to the guest's address arithmetic: compress, mark, grant, write
to the store, read, collect, size the block, map, translate.

**Forwarding tables.** `Mixer` is the hash, `Addresses` the packing of six bytes into a key. `Learning`,
`MacStatic` and `IpStatic` are the tables, each proved against the whole history of frames or commands it
approximates (the first two for any hash, then used with the bridge's), and `Enumeration` is the client's listing loop over the kernel's scan.

**Backend lifecycle.** `Interface` binds and frees interrupts, `Lifecycle` is the state machine that
the frontend's states drive.

Of netmap itself, which is not in the repository, these meanings are assumed: `nm_next` and `nm_prev` step modulo
the slot count; `nm_rxsync_prologue` accepts a head between `nr_hwcur` and `nr_hwtail`; the finalize functions
publish `nr_hwtail`; `nm_ring_empty` is `cur == tail`; `nm_kr_txempty` is `rcur == nr_hwtail`; index translation
has offset 0; `NM_BDG_MAXPORTS` is 254 (no proof depends on the number). Integers are unbounded except where the
code's width matters: the mixer, the keys, `pow2`, and the 16-bit page counts and cursors.

## What is not as the code or its comments suggest

- The attach function notifies the transmit channel unasked (netfront 365). Every state with two rights to kick, so
  also this one, can run into a published packet that is left behind: xmit is idle, no drain is coming, and no step but
  another transmission lets the backend read it (`KickProtocol.StuckStays`). `KickProtocol.NeverStuckIffOneToken`
  characterises the safe states, `KickProtocol.AttachIsNotSafe` applies it.
- Receive kicks are never lost, yet a packet can be: one that is appended after the guest has sampled the ring and
  before the backend is re-armed is announced to nobody (`KickProtocol.PacketCanBeStranded`). When waiting packets
  can still be reached without another append is `KickProtocol.WaitingPacketsReachableIffKicked`.
- `netfront_netmap_xmit` writes the length at `txcur` but the bytes at the published cursor (netfront 249-257). Of the
  packets one kick publishes together, up to one lap of the ring, a single one arrives, and more only where their bytes
  coincide with what the last writer left (`Staging.BatchArrivesExactly`). Of a longer batch the backend sees only what
  whole laps leave over, and the same holds for that (`Staging.VisibleArriveExactly`). A packet stored with nothing
  staged before it is lost to the next one that is staged (`TransmitPath.ThirdDestroysSecond`). What a caller can check
  is that nothing is staged and the kick flag is set: then the packet is published alone and arrives.
- An interrupt between the two flag writes of a kick (netfront 263-264) leaves both flags clear. From every such state
  with room in the published ring the user is given slots again and again although nothing is published, and staged
  packets go round the ring (`TransmitPath.GoRound`, reached by `TransmitPath.StagedGoRound`). While one of the flags is
  set and no such interrupt falls, they never do (`TransmitPath.TxPath.Run`).
- A reclaim does not ask what the backend has read. Unread packets that were published alone are safe as long as every
  reclaim finds all sent packets read but the last (`TransmitPath.TxPath.Run`); otherwise a published packet can be
  overwritten unread (`TransmitPath.OverwrittenUnread`).
- The import loop counts `n` twice per packet (netfront 187 and 209). Only whether it is 0 is used; the model counts once.
- `nm_buf_pages` compares with the page array before it has written it (netback 543); the first slot is marked exactly if
  the stale word differs from its page (`GrantTransfer.MarksExactlyRunStarts`).
- `nr_buf_pgs` is the index of the last page, `nr_ring_pgs` a number of pages, and both loops run to `<=`. The extra ring
  reference is taken back by `nr_grefs--` (netfront 455). The ring arrays are large enough for it only under the condition
  of `GrantTransfer.RingArraysSuffice`; for a page-aligned ring with the default of 1024 slots of 16 bytes they are one
  entry short unless the header ends just behind a page boundary (`GrantTransfer.DefaultRingOverflows`).
- Reference names are formatted into 13 characters, so reference 100 overwrites reference 10
  (`RingRefs.HandOffExactlyUpTo99`).
- The guest reserves room for half as many buffer references as slots, which is enough for contiguous buffers exactly if the
  number of slots is even (`GuestMapping.HalfTheSlotsSuffice`).
- A failed `xenvif_connect` gives away the module reference that `xenvif_alloc` took, and removal gives it away again; with a
  single event channel, unwinding a failed thread frees its line twice (`Interface.Xenvif.Connect`).
- A failed connect still enters Connected. While the hotplug watch is pending no later state is published, not even Closed
  (`Lifecycle.Backend.SetBackendState`).
- Registering the layer-3 bridge again resets all ports but keeps the addresses, so a listing shows old addresses with
  the control port (`IpStatic.RouteShows`).

## Model

| member | source | states |
|---|---|---|
| `Circular.IdxDist` | LINUX/netfront_netmap_linux.h:68-75 | packets less than a lap apart are exactly as far apart as the circular distance of their slots |
| `Circular.IdxIs` | LINUX/netfront_netmap_linux.h:68-75 | a packet's slot is its number modulo the slot count |
| `Circular.IdxPrev` | LINUX/netfront_netmap_linux.h:179 | the slot before a packet's slot is the one a lap minus one further on: the import stops one slot short of `nr_hwcur` |
| `RingSlots.RingFills` | LINUX/netfront_netmap_linux.h:201-207 | filling the next slot extends the window of held packets and disturbs none of them |
| `ReceivePath.CursorsFit` | LINUX/netfront_netmap_linux.h:68-75 | in every reachable state the cursor distances are the packet counts they stand for, so no cursor laps another |
| `ReceivePath.RxPath.constructor` | LINUX/netfront_netmap_linux.h:700-707 | the initial rings and flags satisfy the invariant: `host_need_rxkick` clear, `guest_need_rxkick` set, nothing pending |
| `ReceivePath.RxPath.Interrupt` | LINUX/netfront_netmap_linux.h:392-411 | with the carrier up the receive interrupt sets `host_need_rxkick`, clears `guest_need_rxkick` and marks the interrupt pending; otherwise it does nothing; the invariant is kept |
| `ReceivePath.RxPath.Append` | LINUX/netback_netmap_linux.h:243-245 | the bridge's packets enter the backend's ring in order, exactly while more than one slot is left |
| `ReceivePath.RxPath.BackendReadHead` | LINUX/netback_netmap_linux.h:229-241 | the head the backend reads is in range, so its reinit branch is never taken |
| `ReceivePath.RxPath.BackendSync` | LINUX/netback_netmap_linux.h:247-266 | takes exactly the returned slots back, with their NS_BUF_CHANGED cleared and nothing else in any slot changed, and publishes everything appended |
| `ReceivePath.RxPath.Interfere` | LINUX/netfront_netmap_linux.h:392-411 | any number of interrupts, appends and backend syncs only adds packets, never moves the guest's cursors, and never clears a set `host_need_rxkick` |
| `ReceivePath.RxPath.ImportOne` | LINUX/netfront_netmap_linux.h:187-211 | one pass copies exactly the next packet, with length, bytes and slot flags, and refuses only if the flag is clear or the sampled space is used up |
| `ReceivePath.RxPath.ImportLoop` | LINUX/netfront_netmap_linux.h:186-211 | imports nothing or everything that fits, the latter whenever the flag was set at entry; ends by circular distance |
| `ReceivePath.RxPath.Import` | LINUX/netfront_netmap_linux.h:174-214 | moves `nr_hwtail` by exactly the imported packets, tagged with the ring's slot flags; the sampled space is at least what was published before |
| `ReceivePath.RxPath.Kick` | LINUX/netfront_netmap_linux.h:215-220 | after any import the shared cursors equal the private one and the backend is notified, whatever interrupts fall in between; if none falls, it is notified exactly if the flag was set, and the flag is left clear |
| `ReceivePath.RxPath.ReleaseTo` | LINUX/netfront_netmap_linux.h:227-237 | `nr_hwcur` reaches the user's head; every released slot has NS_BUF_CHANGED cleared, and nothing else in any slot changes |
| `ReceivePath.RxPath.Rxsync` | LINUX/netfront_netmap_linux.h:157-242 | one call: reinit exactly for a bad head; imports 0 or min(free slots up to prev(hwcur), sampled space), and exactly the minimum if the kick flag was set; a kick follows every import; released slots go back; the tail is published; a call that polls and meets no interrupt kicks exactly if the flag was set, and leaves both the flag and the pending mark clear |
| `ReceivePath.RxPath.IdleUntilInterrupt` | LINUX/netfront_netmap_linux.h:197-221 | after a polling call no call imports or kicks until the next interrupt, whatever is appended meanwhile |
| `ReceivePath.RxPath.Run` | LINUX/netfront_netmap_linux.h:157-242 | over any number of calls with any interference, the packets delivered are a prefix of those appended, and each slot the user holds has its packet's length and bytes |
| `ReceivePath.CursorsMoveTogether` | LINUX/netfront_netmap_linux.h:212-217 | between two completed calls the guest's tail and the shared cursor move by the same amount |
| `TransmitPath.TxPath.Interrupt` | LINUX/netfront_netmap_linux.h:372-390 | with the carrier up the transmit interrupt sets `host_need_txkick` and clears `guest_need_txkick`; otherwise it does nothing |
| `TransmitPath.TxPath.Xmit` | LINUX/netfront_netmap_linux.h:244-269 | refuses without effect, or stores length and bytes at the code's two indices and advances `txcur` and `txhead` together; kicks whenever the backend had asked |
| `TransmitPath.TxPath.Kick` | LINUX/netfront_netmap_linux.h:261-266 | publishes everything staged; for a batch of any length, the packets the backend can see stand in their slots if and only if there are none or their bytes coincide, and a batch of up to one lap arrives whole if and only if it is at most one packet or its bytes coincide; an interrupt in the gap leaves both flags clear |
| `Staging.OverlayByte` | LINUX/netfront_netmap_linux.h:251-256 | each byte of the wrongly shared buffer comes from the last packet long enough to reach it |
| `Staging.StagedSlot` | LINUX/netfront_netmap_linux.h:249-259 | within one lap every staged slot gets its own packet's length, and only the first slot's buffer gets bytes |
| `Staging.BatchArrivesExactly` | LINUX/netfront_netmap_linux.h:249-262 | a batch of staged packets of at most one lap arrives whole if and only if it has at most one packet, or its bytes coincide with the last writers' and with what the other buffers held |
| `Staging.VisibleArriveExactly` | LINUX/netfront_netmap_linux.h:249-262 | of a batch of any length the backend sees its number of packets modulo the slots, the last ones; those arrive if and only if there are none or their bytes coincide |
| `Staging.SecondDestroysFirst` | LINUX/netfront_netmap_linux.h:249-259 | of two different staged packets of one length the second destroys the first before either is published |
| `TransmitPath.LogPublishes` | LINUX/netfront_netmap_linux.h:261-262 | a packet that is published alone stands in its slot |
| `TransmitPath.LogStores` | LINUX/netfront_netmap_linux.h:249-259 | storing a packet keeps the ring what the log of packets says, and disturbs no packet published alone within the last lap |
| `TransmitPath.SentSlotsAt` | LINUX/netfront_netmap_linux.h:305-306 | exactly the slots handed over have their flags reset, the others are unchanged |
| `TransmitPath.HandedInFields` | LINUX/netfront_netmap_linux.h:293-313 | what a sync hands over and resets, slot by slot and in fields |
| `TransmitPath.ThirdDestroysSecond` | LINUX/netfront_netmap_linux.h:293-313 | a reachable ring on which a packet that was stored with nothing staged no longer holds |
| `TransmitPath.TxPath.TransmitLoop` | LINUX/netfront_netmap_linux.h:293-313 | hands over the user's packets in order, with the lengths and bytes their slots had before the call, and resets exactly those slots' flags; undisturbed, how many is determined |
| `TransmitPath.TxPath.Reclaim` | LINUX/netfront_netmap_linux.h:326-333 | a reclaim sets `nr_hwtail` to prev(`nr_hwcur`) and leaves exactly N-1 free slots |
| `TransmitPath.TxPath.Txsync` | LINUX/netfront_netmap_linux.h:271-339 | the user's packets are handed over in order, each the first len bytes of its slot; each sent slot has NS_BUF_CHANGED and NS_REPORT cleared and nothing else changed, the other slots are untouched; a packet that finds the kick flag set and nothing staged arrives with its length and bytes; txhead = txcur = hwcur and the circular order are kept; reclaims exactly if not busy and forced or empty, and then keeps unread packets safe if all but the last sent are read; a carrier that is down changes nothing |
| `TransmitPath.TxPath.Advance` | LINUX/netfront_netmap_linux.h:281 | the user's head is accepted exactly between its old value and the tail |
| `TransmitPath.TxPath.Run` | LINUX/netfront_netmap_linux.h:244-339 | every run of syncs, interrupts, backend reads, tail updates, user writes and user moves keeps the lockstep and the order, and every packet published alone until the ring goes round; with no interrupt between the two flag writes of a kick, fewer packets than slots are ever staged; while every reclaim finds all but the last packet read, no unread packet published alone is overwritten |
| `TransmitPath.PaceAfter` | LINUX/netfront_netmap_linux.h:296-333 | a whole sync, with or without a reclaim at its end, keeps the bound on staged packets unless an interrupt falls between the two flag writes |
| `TransmitPath.GoRound` | LINUX/netfront_netmap_linux.h:313-333 | from every ring of two slots or more with both kick flags clear and room in the published ring, three undisturbed turns stage as many packets as there are slots |
| `TransmitPath.StagedGoRound` | LINUX/netfront_netmap_linux.h:262-264 | on a ring of any size such a state is reached by one kick with an interrupt between its flag writes |
| `TransmitPath.OverwrittenUnread` | LINUX/netfront_netmap_linux.h:253-259 | a reachable ring on which a published packet no longer stands in its slot although the backend has not read it |
| `KickProtocol.TxStepKeeps` | LINUX/netback_netmap_linux.h:136-219 | no step loses the last right to kick for transmit and none makes a new one |
| `KickProtocol.RxStepKeeps` | LINUX/netback_netmap_linux.h:193-219 | every step keeps the receive invariant, also when a transmit wake-up re-arms the receive flag early |
| `KickProtocol.XmitCall` | LINUX/netfront_netmap_linux.h:244-269 | an undisturbed transmission publishes everything staged, marks the guest busy, takes the flag and notifies if the flag was set, and only stages otherwise |
| `KickProtocol.BackTxCall` | LINUX/netback_netmap_linux.h:157-180 | an event of a transmit kick sets the backend's flag and wakes its thread |
| `KickProtocol.DrainCall` | LINUX/netback_netmap_linux.h:136-148 | the thread's turn drains everything published by then, clears the flag and notifies |
| `KickProtocol.FrontTxCall` | LINUX/netfront_netmap_linux.h:372-390 | the event back allows the next kick and marks the guest idle |
| `KickProtocol.BridgeCall` | LINUX/netback_netmap_linux.h:315-320 | an append that finds `guest_need_rxkick` set takes it and notifies |
| `KickProtocol.FrontRxCall` | LINUX/netfront_netmap_linux.h:392-411 | the receive event allows the sync function to import |
| `KickProtocol.SyncCall` | LINUX/netfront_netmap_linux.h:174-220 | an undisturbed receive sync takes what is there as far as there is room, takes the flag and notifies |
| `KickProtocol.RearmCall` | LINUX/netback_netmap_linux.h:149-219 | the event of that kick wakes the thread, which sets `guest_need_rxkick` again |
| `KickProtocol.TransmitKickNeverLost` | LINUX/netfront_netmap_linux.h:261-266 | on every run, while `host_need_txkick` is 0, an event, a handler, the backend's flag or a notify is pending |
| `KickProtocol.ReceiveKickNeverLost` | LINUX/netback_netmap_linux.h:315-320 | on every run, while `guest_need_rxkick` is 0, the thread is awake or a receive event, handler, flag or notify is pending |
| `KickProtocol.HelperProgress` | LINUX/netback_netmap_linux.h:143-148 | while the flag is clear some component can move and its step lowers the rank, and no other step raises it or changes whose turn it is |
| `KickProtocol.KickReturns` | LINUX/netfront_netmap_linux.h:372-390 | on every run the flag is set again before the helpers have taken fifteen of their steps |
| `KickProtocol.RxProgress` | LINUX/netback_netmap_linux.h:149-152 | while `guest_need_rxkick` is clear somebody can move, such a step lowers the rank, and no other step raises it |
| `KickProtocol.RearmReturns` | LINUX/netback_netmap_linux.h:193-219 | on every run `guest_need_rxkick` is set again before the helpers have taken twenty of their steps |
| `KickProtocol.OneTokenDrains` | LINUX/netfront_netmap_linux.h:261-266 | from a state with one right to kick there is always one, and every published packet has a drain coming |
| `KickProtocol.DrainArrives` | LINUX/netback_netmap_linux.h:143-148 | a drain that is coming comes: from such a state every published packet is drained within twenty helping steps of any run |
| `KickProtocol.KickMeansRead` | LINUX/netfront_netmap_linux.h:372-390 | with one right to kick the backend has read everything published whenever the guest may kick |
| `KickProtocol.StuckStays` | LINUX/netfront_netmap_linux.h:261-266 | a packet left behind stays unread on every run in which the guest does not transmit |
| `KickProtocol.TwoTokensLose` | LINUX/netfront_netmap_linux.h:261-266 | from every state with two rights to kick some run leaves a packet behind |
| `KickProtocol.NeverStuckIffOneToken` | LINUX/netback_netmap_linux.h:143-148 | no continuation of a state leaves a packet behind if and only if it holds exactly one right to kick and nothing published is already missed |
| `KickProtocol.AttachIsNotSafe` | LINUX/netfront_netmap_linux.h:362-367 | the state attach leaves behind is not safe; without its unasked transmit notify it would be |
| `KickProtocol.StuckWithoutAppend` | LINUX/netfront_netmap_linux.h:197-199 | without a receive kick pending, and no callback of an earlier append under way, no run without an append lets the guest take a packet |
| `KickProtocol.CallbackKicks` | LINUX/netback_netmap_linux.h:315-320 | a callback that is past its append can always go on to kick, the thread re-arming it first if need be |
| `KickProtocol.WaitingPacketsReachableIffKicked` | LINUX/netfront_netmap_linux.h:197-220 | waiting packets can be taken without another append if and only if the flag is set, a kick is on its way, or the callback of an earlier append has not returned |
| `KickProtocol.PacketCanBeStranded` | LINUX/netback_netmap_linux.h:315-320 | a run from the state attach leaves behind that ends with a published packet only another append can free |
| `Pages.RunHasPage` | LINUX/netback_netmap_linux.h:538-548 | the entry of a slot's run is the slot's page |
| `Pages.RunsHaveNoRepeats` | LINUX/netback_netmap_linux.h:543-546 | no two neighbouring entries of the compressed list are equal |
| `Pages.ContiguousRuns` | LINUX/netback_netmap_linux.h:538-552 | contiguous buffers of half a page compress to one entry per page, in order |
| `Pages.ArithmeticFindsBuffers` | LINUX/netfront_netmap_linux.h:59-60 | if the compressed pages are mapped in order, base + 2048 i + o is byte o of slot i's buffer, for every slot and byte |
| `GrantTransfer.NmBufPages` | LINUX/netback_netmap_linux.h:525-553 | the page array holds the page sequence with adjacent repeats removed, and the slots are marked 1 or 0 |
| `GrantTransfer.MarksExactlyRunStarts` | LINUX/netback_netmap_linux.h:542-546 | exactly the run starts are marked if and only if the array's first word was not already the first page |
| `GrantTransfer.NmRingPages` | LINUX/netback_netmap_linux.h:497-523 | the array holds every page from the ring header to the last slot in order; the result is their number |
| `GrantTransfer.RingArraysSuffice` | LINUX/netback_netmap_linux.h:59 | the `<=` loops stay inside the ring arrays if and only if the ring's size spans more pages than lie between its start and its last slot; for a page-aligned ring, if and only if the last slot reaches a page's end |
| `GrantTransfer.DefaultRingOverflows` | LINUX/netback_netmap_linux.h:59-63 | for a page-aligned ring of the default size they do not, unless the header ends within 16 bytes behind a page boundary |
| `GrantTransfer.GrantBuffers` | LINUX/netback_netmap_linux.h:368-377 | the k-th marked slot is granted page k, within the array, and carries the fresh reference |
| `GrantTransfer.GrantRingPages` | LINUX/netback_netmap_linux.h:379-382 | one distinct fresh reference per page, one page more than counted |
| `GrantLifetime.NmGrantRing.Grant` | LINUX/netback_netmap_linux.h:352-383 | the k-th of nr_ring_pgs ring references grants the k-th page from the header's page on, up to the last slot's; the others grant exactly the buffers' runs, and the slots carry them |
| `GrantLifetime.NmGrantRing.Revoke` | LINUX/netback_netmap_linux.h:385-403 | every granted reference is ended exactly once, while live, and nothing else |
| `GrantLifetime.Vif.Map` | LINUX/netback_netmap_linux.h:405-421 | grants both rings once; a repeated call changes neither the table nor the descriptors nor the slot words |
| `GrantLifetime.Vif.Unmap` | LINUX/netback_netmap_linux.h:445-460 | leaves exactly the grants of others; repeated calls change nothing |
| `GrantLifetime.Vif.Run` | LINUX/netback_netmap_linux.h:405-460 | over every sequence of maps and unmaps the number of live grants is exactly one set per ring or none |
| `GrantLifetime.RevokedAll` | LINUX/netback_netmap_linux.h:388-394 | removing both reference lists restores the grant table as it was before |
| `RingRefs.ShortNames` | LINUX/netback_netmap_linux.h:473-475 | below 100 the formatted names are read back as written and tell references apart |
| `RingRefs.DecimalReads` | LINUX/netback_netmap_linux.h:474 | the number in a name is the decimal rendering of the reference index |
| `RingRefs.HandOffExactlyUpTo99` | LINUX/netback_netmap_linux.h:472-478 | the guest reads the first count references back right if and only if count is at most 99 |
| `RingRefs.BothRingsHandedOver` | LINUX/netback_netmap_linux.h:471-494 | neither ring's keys disturb the other's, and each ring gets through if and only if its count is at most 99 |
| `RingRefs.Store.WriteGrefs` | LINUX/netback_netmap_linux.h:462-495 | the store after writing both rings' references and their numbers plus one |
| `RingRefs.Store.ReadRing` | LINUX/netfront_netmap_linux.h:585-620 | reads the number and every reference whose key exists |
| `GuestMapping.CollectedAreRefs` | LINUX/netfront_netmap_linux.h:629-633 | the non-zero slot words, in slot order, are the backend's reference list |
| `GuestMapping.HalfTheSlotsSuffice` | LINUX/netfront_netmap_linux.h:626-627 | for contiguous buffers half as many references as slots suffice if and only if the number of slots is even |
| `GuestMapping.ReadBufsGrefs` | LINUX/netfront_netmap_linux.h:622-637 | collects exactly the non-zero words within the reserved array |
| `GuestMapping.PowerOfTwo` | LINUX/netfront_netmap_linux.h:413-424 | repeated doubling is 2 to the order, modulo 2 to the 32 |
| `GuestMapping.Order` | LINUX/netfront_netmap_linux.h:426-433 | for 1 to 2^31 references, the least order whose block holds them |
| `GuestMapping.FillOps` | LINUX/netfront_netmap_linux.h:469-477 | every address handed to the hypervisor lies on its own page inside the allocated block |
| `GuestMapping.Guest.GnttabMap` | LINUX/netfront_netmap_linux.h:442-503 | page k of the block shows the page that reference k grants, for every live reference, and nothing outside the block changes |
| `HandOver.BufArraysSuffice` | LINUX/netback_netmap_linux.h:60 | the backend's buffer arrays, sized by slot 0's length at that moment, hold all buffer pages if and only if that length times the slots spans all pages but one; the guest's list always has room |
| `HandOver.MapAll` | LINUX/netfront_netmap_linux.h:673-693 | the four mappings leave each other intact |
| `HandOver.RingFound` | LINUX/netfront_netmap_linux.h:673-693 | if the ring's pages are mapped in order, a byte of the ring lies as far from the guest's base as from the start of the header's page |
| `HandOver.SetUp` | LINUX/netfront_netmap_linux.h:639-714 | end to end: for both rings, by arithmetic alone, the guest reaches every byte from the start of the header's page to the end of the last slot's page, and every byte of every slot's buffer |
| `Mixer.MixRoundTrip` | bdgfn/include/bdgfn_kern.h:90-101 | the mixer is a bijection on 32-bit triples: its inverse undoes it from both sides |
| `Mixer.MixInPlace` | bdgfn/include/bdgfn_kern.h:90-101 | the 27 assignments compute the specified three rounds |
| `Mixer.PackingInjective` | bdgfn/include/bdgfn_kern.h:106-113 | the words built from four and from two address bytes determine those bytes |
| `Mixer.OnlyTheMaskCollides` | bdgfn/include/bdgfn_kern.h:103-118 | two addresses have equal mixed words if and only if they are equal, so entries collide only through the final mask |
| `Mixer.RtHash` | bdgfn/include/bdgfn_kern.h:103-118 | computes the entry of an address, which is below 1024 |
| `Mixer.EntryIs` | bdgfn/include/bdgfn_kern.h:116-117 | the entry of an address is its third mixed word modulo 1024 |
| `Mixer.SharedEntry` | bdgfn/include/bdgfn_kern.h:116-117 | two addresses share an entry if and only if their third mixed words agree modulo 1024 |
| `Mixer.KnownHash` | bdgfn/include/bdgfn_kern.h:90-118 | the three mixed words and the entry of one address, number by number |
| `Mixer.KnownCollision` | bdgfn/include/bdgfn_kern.h:103-118 | two neighbouring addresses that share an entry |
| `Addresses.SourceKey` | bdgfn/include/bdgfn_kern.h:130-131 | the load two bytes early, shifted, is the key of bytes 6 to 12 |
| `Addresses.LowSix` | bdgfn/include/bdgfn_kern.h:129 | the masked load is the first six bytes, whatever follows them |
| `Addresses.PackInjective` | bdgfn/include/bdgfn_kern.h:143 | equal keys are equal addresses |
| `Learning.Bridge.BdgLearning` | bdgfn/include/bdgfn_kern.h:121-149 | stores the port under bytes 6 to 12 unless the group bit of byte 6 is set, then decides: the default for a group bit in byte 0; else, if the latest frame that taught the entry of bytes 0 to 6 came from exactly those six bytes, its port, otherwise the default; ring 0 |
| `Learning.Bridge.LsbLearning` | bdgfn/learn.c:52-83 | the same for the learner that indexes by the last byte, 11 of the source and 5 of the destination |
| `Learning.DecidedInBytes` | bdgfn/include/bdgfn_kern.h:133-146 | the decision prescribed by the history, spelled out in bytes of the frames |
| `Learning.LearnedExactly` | bdgfn/include/bdgfn_kern.h:133-146 | for any hash, so for both learners: a unicast destination gets the port of the latest frame from it if that frame is the latest to store anything in its entry, otherwise the default |
| `Learning.ForgottenExactly` | bdgfn/include/bdgfn_kern.h:133-137 | for any hash, an address is forgotten if and only if a later unicast source with the same index displaced it |
| `Learning.NeverInvented` | bdgfn/include/bdgfn_kern.h:143-145 | even when learners with different hashes take turns on one table, a non-default answer is a port from which the destination was seen |
| `MacStatic.Table.Lookup2` | bdgfn/mac-static.c:63-77 | a source with the group bit in byte 6 gets the control port; any other what the latest add into the entry of bytes 6 to 12 said, or no port; ring 0 |
| `MacStatic.ChosenInBytes` | bdgfn/mac-static.c:63-77 | the choice prescribed by the history, spelled out in bytes of the frame |
| `MacStatic.LatestRegistration` | bdgfn/mac-static.c:128-132 | the control port is that of the bridge's latest registration, or no port |
| `MacStatic.ExactFollows` | bdgfn/mac-static.c:79-90 | the reference answer is a map: an add changes it at one address of one bridge |
| `MacStatic.Table.BdgAddIf2` | bdgfn/mac-static.c:79-90 | the table stays equal to the history with this add, on every bridge |
| `MacStatic.Table.Register` | bdgfn/mac-static.c:128-132 | the table stays equal to the history with this registration |
| `MacStatic.Table.constructor` | bdgfn/mac-static.c:151-167 | after initialisation every entry of every bridge is empty and says "no port" |
| `MacStatic.Table.BdgList` | bdgfn/mac-static.c:92-119 | for a non-negative index: the first used entry from there on, with the installed address bytes and port, or ENOENT and an unchanged request |
| `MacStatic.LatestWins` | bdgfn/mac-static.c:79-90 | for any hash, an entry holds what was last installed for an address unless a later add displaced it, and then the last address that did |
| `MacStatic.ExactWithoutCollisions` | bdgfn/mac-static.c:70-73 | while no other installed address shares its hash, a unicast source is forwarded as a map would |
| `MacStatic.CollisionAnswersForOthers` | bdgfn/mac-static.c:70-73 | without tags one add decides for every address with the same hash |
| `MacStatic.UnpackPack` | bdgfn/mac-static.c:105-112 | the listed bytes are the installed ones |
| `IpStatic.HashApart` | bdgfn/ip-static.c:123-129 | two addresses share an entry if and only if their last two bytes agree |
| `IpStatic.HashIs` | bdgfn/ip-static.c:123-129 | the entry is the last byte times 256 plus the one before it |
| `IpStatic.Table.Lookup3` | bdgfn/ip-static.c:148-198 | the layer-2 port if there is one; else for type 08 00 the port of bytes 26 to 30, or of 30 to 34 where that is the control port, for type 86 dd the same with bytes 22 to 26 and 38 to 42, and no port for any other type; in one /16 both ports are a plain map's |
| `IpStatic.TypeOf` | bdgfn/ip-static.c:171-176 | the type read in network order is 0x0800 exactly for bytes 08 00 and 0x86dd exactly for 86 dd |
| `IpStatic.Table.Register` | bdgfn/ip-static.c:242-265 | a registration sets every port of its bridge and the control port, and keeps the addresses |
| `IpStatic.Table.BdgAddIf3` | bdgfn/ip-static.c:200-213 | the table stays equal to the history with this add |
| `IpStatic.Table.BdgList` | bdgfn/ip-static.c:215-240 | for a non-negative index: the first used entry from there on, with four address bytes, or ENOENT and an unchanged request |
| `IpStatic.LatestWins` | bdgfn/ip-static.c:200-208 | the port is a plain map's unless a later add of an address with the same last two bytes displaced it, and then that add's |
| `IpStatic.ExactInSubnet` | bdgfn/ip-static.c:123-129 | inside one /16 the table is the map |
| `IpStatic.SubnetRouting` | bdgfn/ip-static.c:164-189 | there a frame goes where a plain map sends its source, or its destination when the source maps to the control port |
| `IpStatic.ExactFollows` | bdgfn/ip-static.c:200-208 | the plain map: a registration sets it everywhere on its bridge, an add at one address |
| `IpStatic.LatestRegistration` | bdgfn/ip-static.c:260-265 | the control port is that of the bridge's latest registration, 0 before the first |
| `IpStatic.RoutedInBytes` | bdgfn/ip-static.c:164-189 | the same for a frame, spelled out in its bytes |
| `IpStatic.UnknownMapsToControl` | bdgfn/ip-static.c:260-265 | an address not added since the registration maps to the control port |
| `IpStatic.RouteShows` | bdgfn/ip-static.c:223-235 | an entry is listed if and only if its address is not zero, with that address and its current port |
| `IpStatic.AddressKept` | bdgfn/ip-static.c:242-250 | an installed address stays listed, through registrations too, until one with the same last two bytes replaces it |
| `Enumeration.ListIf` | bdgfn/bdgfn.c:108-121 | the loop ends and prints exactly the used entries, each once and in increasing order |
| `Enumeration.InstalledMacListed` | bdgfn/bdgfn.c:108-121 | every layer-2 address still held is printed, byte for byte, with its port |
| `Enumeration.InstalledIpListed` | bdgfn/bdgfn.c:108-121 | the same for layer 3 |
| `Enumeration.OnlyInstalledMacListed` | bdgfn/bdgfn.c:108-121 | every printed layer-2 line shows an address that was added, with the port it was added with |
| `Enumeration.OnlyInstalledIpListed` | bdgfn/bdgfn.c:108-121 | the same for layer 3 |
| `Interface.Xenvif.BindLines` | LINUX/patches/diff--xen-netback--30d00--30e00:807-837 | binds one line or two, each left disabled, or none |
| `Interface.Xenvif.Connect` | LINUX/patches/diff--xen-netback--30d00--30e00:793-874 | succeeds exactly when every stage does, and then the bound lines are the returned ones, enabled exactly if the device runs; else holds nothing, with a module reference given away; a line is freed twice exactly for a single channel whose thread fails |
| `Interface.Xenvif.Disconnect` | LINUX/patches/diff--xen-netback--30d00--30e00:887-908 | from any state holds nothing, and the kernel has nothing to reject |
| `Interface.Xenvif.Open` | LINUX/patches/diff--xen-netback--30d00--30e00:596-603 | afterwards every bound line is enabled exactly if the carrier is up |
| `Interface.Xenvif.Close` | LINUX/patches/diff--xen-netback--30d00--30e00:605-612 | afterwards every bound line is disabled |
| `Lifecycle.RouteIsShortest` | LINUX/patches/diff--xen-netback--30d00--30e00:1267-1286 | the route is a walk along allowed transitions from start to target, and no such walk is shorter |
| `Lifecycle.Backend.Step` | LINUX/patches/diff--xen-netback--30d00--30e00:1291-1346 | one turn of the loop: the state it goes to from each of the four, always on the shortest route; no BUG branch is reached; only entering Connected connects, only leaving it disconnects; the new state is published unless a watch is pending |
| `Lifecycle.Backend.SetBackendState` | LINUX/patches/diff--xen-netback--30d00--30e00:1287-1348 | ends in the target by exactly the shortest route; with a watch pending publishes nothing on the way to other states than Connected; the interface is live afterwards exactly if the attempt could succeed |
| `Lifecycle.Backend.ConnectRings` | LINUX/patches/diff--xen-netback--30d00--30e00:1516-1637 | the exact condition for success: a netmap backend needs event channels, lines and a thread only, others also ring references, acceptable features and mappable rings; failure leaves the interface idle and is reported except for a missing rx-copy |
| `Lifecycle.Backend.Connect` | LINUX/patches/diff--xen-netback--30d00--30e00:1486-1513 | the watch is renewed exactly when rings and address are there; an unreadable address leaves the connection standing |
| `Lifecycle.Backend.FrontendChanged` | LINUX/patches/diff--xen-netback--30d00--30e00:1353-1393 | where each frontend state leads: Connected, Closing and Closed to themselves, Initialising to InitWait, Unknown to Closed, any other nowhere; a new connection is live exactly if the attempt could succeed; the device ends exactly for an unknown frontend or one closed and not online |
| `Lifecycle.Backend.HotplugStatusChanged` | LINUX/patches/diff--xen-netback--30d00--30e00:1463-1484 | a finished hotplug script publishes the current state |
| `Lifecycle.Backend.Remove` | LINUX/patches/diff--xen-netback--30d00--30e00:1046-1062 | closes, disconnects and frees; the interface then holds nothing |
| `Lifecycle.Backend.Run` | LINUX/patches/diff--xen-netback--30d00--30e00:1287-1393 | over any sequence of events: connects and disconnects alternate, outside Connected no interrupt and no thread is held, the published state is current unless a watch or an error report holds it back, and references and faults are exactly those of the failed attempts |
| `Lifecycle.SplitChannelsAreSafe` | LINUX/patches/diff--xen-netback--30d00--30e00:863-868 | without a single channel whose thread fails no run makes the kernel reject a call |

## Left out

- VALE and netmap internals: the bridge's own transmit, ring reinit, adapter attachment and the ring locks are environment steps or assumed; a bad buffer, which makes the receive sync reinit, does not occur.
- Weak memory: steps are sequentially consistent, and the barriers are not modelled.
- Hypervisor and xenstore: the grant table, page mapping and store are maps; transactions never fail and are not retried, and message handling in `xenbus_write_evtchn` is omitted. Grant mapping fails only for dead references.
- Teardown on the guest: `gnttab_unmap` and `xennet_netmap_disconnect`; unmapping is commented out in the latter.
- KickProtocol: carriers stay up, the bridge stays attached, both interrupts are bound and the rings never fill; a disabled kring, where `xenvif_notify` returns early, is not modelled.
- TransmitPath.TxPath.Xmit: does not promise the bytes of packets staged between two kicks, because the code writes them at another index; `Staging.BatchArrivesExactly` is the exact condition for a batch of at most one lap, `Staging.VisibleArriveExactly` for what the backend sees of any batch. User lengths are at most the buffer size.
- TransmitPath.TxPath.Kick: the handler's two flag writes are one step; a handler that a whole kick overtakes has the effect of an interrupt between the kick's writes.
- MacStatic.Table.BdgList: promises nothing for arguments from 2^31 on, which the code turns into a negative index before the table; the client never sends them.
- IpStatic.Table.BdgList: the same.
- TransmitPath.TxPath.Advance: netmap's own validation of the user's cursors, as far as the transmit sync relies on it; it is not in the repository.
- GrantLifetime.NmGrantRing.Grant: assumes ring arrays with one entry more than there are ring pages, and an allocation whose first word is not the first page; the two conditions are stated exactly by `GrantTransfer.RingArraysSuffice` and `GrantTransfer.MarksExactlyRunStarts`.
- HandOver.SetUp: assumes at most 99 ring pages, an even number of slots, consecutive buffers from a page boundary on, and disjoint allocated blocks; waiting for `num_slots` to appear is omitted.
- GuestMapping.Order: above 2^31 references the 32-bit doubling reaches 0 and the loop does not end; the code never gets there.
- Learning.LearnedExactly: leaves out the all-zero destination, which an empty entry matches because the table starts zeroed; there is no ageing in the code either.
- IpStatic.Table.Lookup3: frames are long enough for the addresses that are read, which the code does not check; IPv6 addresses enter by their first four bytes, as in the code. The unused hash `iphash` and the disabled debug output are omitted.
- Enumeration.ListIf: the table does not change while it is listed, the host is little-endian, and printing formats are omitted.
- Bridge numbers in control requests are within range, and an ioctl only fails as the handlers do; the result of registering with netmap does not influence the tables in the code.
- Lifecycle: a failed probe and the removal it triggers, interrupts that arrive during connect or disconnect, rate and feature parsing beyond what can stop a connection, and the effect of an error report on the published state beyond "no longer ours".
- `bdgfnctl.c`, `hashtest.c`, the scripts, Makefiles, the ixgbe patch and the patches for other kernel versions: option parsing, plumbing, duplicates of the same hooks.
