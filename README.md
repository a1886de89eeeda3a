# Neighbour cache and ARP, modelled in Dafny

This project models the generic neighbour cache of Linux 2.6.32
(`net/core/neighbour.c` and `include/net/neighbour.h`) and the ARP logic
built on it (`net/ipv4/arp.c`), and proves properties of the model.

The neighbour cache maps a (protocol address, device) pair to a link-layer
address and a reachability state (NUD). It covers:

- the hash table of entries with its reference counts, its growth and its
  garbage collectors;
- the per-entry state machine: the send path, the timer and administrative
  or protocol updates;
- the proxy table, with its delay queue and the list of per-device
  parameter blocks.

On the ARP side it covers:

- the wire format written by `arp_create` and read by `arp_rcv`/`arp_process`;
- the decisions `arp_process` takes;
- the per-entry constructor and solicitation;
- the `SIOCSARP`/`SIOCGARP`/`SIOCDARP` requests;
- the hardware-address column of `/proc/net/arp`.

Modules, one per file:

- `Nud` (nud.dfy): NUD states, their bits and masks, and the update-flag word.
- `NeighEntry` (neigh_entry.dfy): one entry.
  - `__neigh_event_send`, `neigh_timer_handler`, `neigh_update` and
    `neigh_invalidate` are each a specification function, and a method
    proved equal to it statement by statement.
  - Lemmas state the promised transitions.
- `Chains` (chains.dfy): bucket chains.
  - The lookup walk, the pointer-to-pointer sweep shared by forced GC,
    periodic GC and the device flush (one `Fate` per entry), and the move
    loop of `neigh_hash_grow`.
- `Proxy` (proxy.dfy): `pneigh_hash`, the proxy chains and the proxy delay queue.
- `NeighTable` (neigh_table.dfy): the class `Table`, i.e. `struct neigh_table`.
  - Its fields are updated in place by methods with `modifies this`.
  - The invariant `Valid()` holds: well-formed chains, the reference
    discipline of every entry, the parameter list and the proxy table.
  - `Counted()` says that `entries` counts every allocated, not yet
    destroyed entry.
  - An entry is a record in `slab: map<Id, Neigh>`, and an `Id` stands for
    the `struct neighbour *`. Unlinked entries that are still referenced
    stay in `slab`, marked `dead`.
- `ArpWire` (arp_wire.dfy): the ARP packet layout.
  - `arp_create` fills a byte array.
  - `arp_send`; the header tests of `arp_rcv` and `arp_process`.
- `ArpNeigh` (arp_neigh.dfy): `arp_constructor`, `arp_solicit`, `arp_ignore`
  and `arp_state_to_flags`.
- `ArpRx` (arp_rx.dfy): the decision of `arp_process`, and the
  `neigh_update` it issues.
- `ArpAdmin` (arp_admin.dfy): `arp_req_get`, `arp_req_set`,
  `arp_req_delete` and their proxy halves, run against a `Table`.
- `ArpFormat` (arp_format.dfy): the hex formatter of
  `arp_format_neigh_entry`, and `ax2asc2`.
- `Wrappers`, `Seqs`: `Option`/`Result` and small sequence and map facts.

Time is an integer `now` in jiffies, with `HZ` = 250. Wrap-around of jiffies
is not modelled.

Randomness, the hash function and allocation failures are parameters:

- `rand`, `rnd`;
- `hash: HashFn`;
- `oom`, `growOom`.

Calls into code outside the model are also parameters:

- the protocol constructor `ctor`;
- `inet_addr_type` as `addrType`;
- `inet_confirm_addr` as `confirm`;
- `__in_dev_get_rtnl` as `inDevOf`;
- `dev_getbyhwaddr` as `byHw`;
- `ip_route_output_key` as `routed`;
- `ip_*_mc_map` as `linkMap`;
- `netif_running` as `running`.

Packets that a call sends, frees or reports are returned as sequences
rather than passed to callbacks.

## Model

| member | source | states |
|---|---|---|
| Nud.MasksAreBitTests | include/net/neighbour.h:34-36 | each NUD predicate is exactly the bit test of the state against NUD_IN_TIMER, NUD_VALID, NUD_CONNECTED |
| Nud.MaskRelations | include/net/neighbour.h:34-36 | CONNECTED is inside VALID; INCOMPLETE is in IN_TIMER but not VALID; PERMANENT and NOARP never run a timer; FAILED and NONE are in neither |
| Nud.FlagWord | include/net/neighbour.h:231-240 | each update flag is recovered by its own bit test of the flag word |
| NeighEntry.RandReachTime | net/core/neighbour.c:127-130 | the drawn reachable time lies in [base/2, 3*base/2), and is 0 for base 0 |
| NeighEntry.Enqueue | net/core/neighbour.c:1120-1134 | the packet is appended; the oldest packet is dropped exactly when queue_len packets already wait; nothing is lost (dropped ++ queue == old ++ [pkt]) |
| NeighEntry.EventSendStates | net/core/neighbour.c:1065-1138 | a connected, DELAY or PROBE entry is unchanged with result 0; NONE/FAILED goes to INCOMPLETE with probes = ucast_probes and a timer, or straight to FAILED (result 1, packet freed) without multicast/app probes; STALE goes to DELAY with a timer of delay_probe_time |
| NeighEntry.EventSendQueue | net/core/neighbour.c:1120-1134 | a packet is either queued behind the old queue or freed; the queue never exceeds max(queue_len, 1) |
| NeighEntry.EventSendOk | net/core/neighbour.c:1065-1138 | the send path keeps the entry's identity and its reference discipline |
| NeighEntry.EventSendSlow | net/core/neighbour.c:1065-1138 | the statement-by-statement `__neigh_event_send` computes EventSendStep |
| NeighEntry.Invalidate | net/core/neighbour.c:909-929 | every queued packet, oldest first, is reported while the entry is FAILED; the queue is emptied and `updated` stamped |
| NeighEntry.Timeout | net/core/neighbour.c:963-1013 | REACHABLE stays while confirmed within reachable_time, else DELAY if used within delay_probe_time, else STALE (notify); DELAY goes to REACHABLE if confirmed within delay_probe_time, else PROBE with probes 0; INCOMPLETE/PROBE re-arm after retrans_time |
| NeighEntry.Reprobe | net/core/neighbour.c:1019-1046 | a spent probe budget fails the entry and reports its queue; otherwise the probe count grows and a solicitation is sent; the timer is never re-armed sooner than now + HZ/2 and holds a reference |
| NeighEntry.TimerStep | net/core/neighbour.c:942-1057 | an entry outside the timer states is untouched; INCOMPLETE/PROBE fail exactly when probes >= neigh_max_probes, else probe again; re-arm no sooner than HZ/2; reference count follows the timer |
| NeighEntry.TimerTimeouts | net/core/neighbour.c:963-1007 | the REACHABLE and DELAY transitions of the whole handler, with their re-arm times (DELAY with no unicast probes fails at once) |
| NeighEntry.Expire | net/core/neighbour.c:963-1013 | the statement-by-statement timeouts compute Timeout |
| NeighEntry.Rearm | net/core/neighbour.c:1019-1046 | the statement-by-statement fail/re-arm/solicit computes Reprobe |
| NeighEntry.TimerHandler | net/core/neighbour.c:942-1057 | the statement-by-statement handler computes TimerStep |
| NeighEntry.UpdateGate | net/core/neighbour.c:1209-1251 | -EPERM exactly when a non-admin update meets NOARP/PERMANENT; -EINVAL exactly when no address is given for a valid state to an entry without one; an invalid new state takes the invalidating path; the cached address is kept iff no address length, none given or the same one |
| NeighEntry.Decide | net/core/neighbour.c:1265-1285 | a different address on a valid entry without OVERRIDE is ignored, or under WEAK_OVERRIDE on a connected entry only drops it to STALE; a same-address STALE request keeps a valid entry's state under WEAK_OVERRIDE or when connected; otherwise the requested state is taken (STALE included, for a valid unconnected entry without WEAK_OVERRIDE), the supplied address is adopted iff it differs, and is_router is rewritten iff OVERRIDE_ISROUTER is given and the weak path was not taken |
| NeighEntry.Restate | net/core/neighbour.c:1288-1296 | a new state cancels the timer and starts one (after reachable_time for REACHABLE, else at once) only for timer states, with the reference following the timer |
| NeighEntry.Adopt | net/core/neighbour.c:1300-1307 | the first addr_len bytes of the address are replaced, the rest kept; an entry not connected loses its confirmation |
| NeighEntry.Reconnect | net/core/neighbour.c:1310-1335 | the output matches the new state; an entry that was not valid sends its whole queue, a valid one keeps it |
| NeighEntry.ApplyUpdate | net/core/neighbour.c:1288-1341 | the state, timer, address and queue after an accepted update, in terms of Restate and the decision |
| NeighEntry.Demote | net/core/neighbour.c:1213-1228 | an update to an invalid state stops the timer, sets the state, notifies iff the entry was valid or failed while resolving, and then reports the queue |
| NeighEntry.UpdateStep | net/core/neighbour.c:1190-1350 | the error results of neigh_update in both directions, and that an error changes nothing |
| NeighEntry.Proceeding | net/core/neighbour.c:1253-1341 | an accepted update keeps the caller's reference and the entry's reference discipline |
| NeighEntry.UpdateResolves | net/core/neighbour.c:1288-1335 | an entry without a valid address takes the requested state and, once valid, sends its queue |
| NeighEntry.UpdateAddress | net/core/neighbour.c:1231-1307 | a given address is taken by an entry without one or under OVERRIDE; without OVERRIDE a valid entry never changes its address |
| NeighEntry.UpdateKeepsRefs | net/core/neighbour.c:1190-1350 | neigh_update keeps the reference count consistent with the timer |
| NeighEntry.Drain | net/core/neighbour.c:1315-1335 | the flush loop sends the whole queue, oldest first, and empties it |
| NeighEntry.DemoteEntry | net/core/neighbour.c:1213-1228 | the statement-by-statement invalidating branch computes Demote |
| NeighEntry.Restart | net/core/neighbour.c:1288-1296 | the statement-by-statement state change computes Restate |
| NeighEntry.Override | net/core/neighbour.c:1265-1285 | the statement-by-statement override rules compute Decide |
| NeighEntry.Commit | net/core/neighbour.c:1288-1341 | the statement-by-statement second half computes ApplyUpdate |
| NeighEntry.ProceedEntry | net/core/neighbour.c:1253-1341 | the statement-by-statement accepted update computes Proceeding |
| NeighEntry.Gatekeep | net/core/neighbour.c:1209-1251 | the statement-by-statement checks compute UpdateGate |
| NeighEntry.Update | net/core/neighbour.c:1190-1350 | the statement-by-statement neigh_update computes UpdateStep |
| Chains.SlotOf | net/core/neighbour.c:444-465 | the bucket of a key is its salted hash modulo the table size (hash_mask + 1), which is always below the table size |
| Chains.Find | net/core/neighbour.c:444-465 | an entry of the chain that matches (key, dev), or none iff no entry of the chain matches |
| Chains.FindFirst | net/core/neighbour.c:456-462 | the walk stops at the first match: the entry found sits at a position of the chain before which no entry matches |
| Chains.FindIsTheEntry | net/core/neighbour.c:444-465 | in well-formed chains the walk of a key's bucket finds exactly the linked entry for (key, dev) |
| Chains.FindInChain | net/core/neighbour.c:456-462 | the `next`-pointer walk computes Find |
| Chains.GatherMem | net/core/neighbour.c:418-430 | after the move loop a node sits in the bucket its key hashes to under the new size, and nowhere else |
| Chains.RegroupOk | net/core/neighbour.c:394-435 | growth leaves well-formed chains under the new size and salt, with exactly the same linked entries |
| Chains.Rehash | net/core/neighbour.c:418-430 | the bucket-by-bucket move loop computes Regroup |
| Chains.SweepOk | net/core/neighbour.c:138-178 | a sweep leaves well-formed chains: each keeps its survivors in order, and every entry keeps its reference discipline |
| Chains.SweepChain | net/core/neighbour.c:149-171 | the pointer-to-pointer walk of one chain applies each entry's fate, keeps survivors in order, reports whether it unlinked any, and counts the freed |
| Chains.SweepAll | net/core/neighbour.c:149-171 | the walk of every bucket applies the fate to exactly the chained entries and counts the freed entries |
| Chains.ChainsOkLink | net/core/neighbour.c:563-566 | linking an entry at the head of its bucket, when no linked entry has its key, keeps the chains well formed |
| Proxy.PneighHash | net/core/neighbour.c:580-588 | the proxy bucket is at most PNEIGH_HASHMASK |
| Proxy.FoldIsNibbleXor | net/core/neighbour.c:580-588 | the folding keeps exactly the exclusive or of the eight nibbles of the last word |
| Proxy.PneighHashByteOrder | net/core/neighbour.c:580-588 | the bucket does not depend on the order of the last four bytes, so host byte order does not matter |
| Proxy.PFind | net/core/neighbour.c:590-604 | an entry answering for (key, dev), an entry without device answering for every device; none iff no entry answers |
| Proxy.PFindFirst | net/core/neighbour.c:590-604 | the walk stops at the first entry that answers: no entry before the one found answers for (key, dev) |
| Proxy.Lookup1 | net/core/neighbour.c:590-604 | the walk of `__pneigh_lookup_1` computes PFind |
| Proxy.PIndex | net/core/neighbour.c:664-689 | the position of the first entry for exactly (key, dev), none iff absent |
| Proxy.DeleteFrom | net/core/neighbour.c:664-689 | the first entry for exactly (key, dev) is unlinked with result 0, or the chain is unchanged with -ENOENT |
| Proxy.Survivors | net/core/neighbour.c:691-713 | exactly the entries not bound to the device (all entries go when no device is given) survive, in order |
| Proxy.IfdownChain | net/core/neighbour.c:697-710 | the pointer-to-pointer walk computes Survivors |
| Proxy.IfdownAll | net/core/neighbour.c:691-713 | every bucket keeps exactly its survivors |
| Proxy.ProxyEnqueue | net/core/neighbour.c:1567-1596 | a request is dropped iff the queue holds more than proxy_qlen (strict); otherwise it is appended, due within proxy_delay, and the timer still comes no later than every queued request |
| Proxy.Waiting | net/core/neighbour.c:1531-1561 | exactly the requests not yet due stay queued |
| Proxy.Redone | net/core/neighbour.c:1545-1551 | only due requests on a running device with a redo hook are redone |
| Proxy.Discarded | net/core/neighbour.c:1545-1551 | only due requests without a redo hook or running device are freed |
| Proxy.DueHandedOn | net/core/neighbour.c:1545-1551 | conversely, every due request is handed on: redone when there is a redo hook and its device is running, freed otherwise |
| Proxy.ProxyPartition | net/core/neighbour.c:1531-1561 | the waiting, redone and freed packets together are exactly the queue's packets, as a multiset: none is lost or handed on twice |
| Proxy.EarliestIsMin | net/core/neighbour.c:1554-1559 | the smallest due time of the queue, which some request has |
| Proxy.SchedNextStep | net/core/neighbour.c:1554-1555 | the sched_next update keeps sched_next the distance from now to the earliest waiting request |
| Proxy.ProxyWalk | net/core/neighbour.c:1540-1555 | the loop leaves exactly the waiting requests queued and hands the due ones to redo or frees them, in order, with sched_next the distance to the earliest waiting request |
| Proxy.ProxyProcess | net/core/neighbour.c:1531-1561 | the walk keeps exactly the waiting requests, hands the due ones to redo or frees them in order, and re-arms the timer for the earliest waiting request or cancels it |
| NeighTable.Fresh | net/core/neighbour.c:321-353 | a fresh entry is NONE, unlinked (dead), holds one reference and no timer |
| NeighTable.ForcedFate | net/core/neighbour.c:149-171 | forced GC destroys or keeps an entry unchanged, keeping the reference discipline |
| NeighTable.PeriodicFate | net/core/neighbour.c:844-880 | PERMANENT and timer-state entries are left alone; `used` catches up with `confirmed`; an entry is destroyed iff only the table holds it and it is FAILED or unused for gc_staletime |
| NeighTable.FlushFate | net/core/neighbour.c:218-252 | entries of other devices stay; an entry of the device is unlinked, and if still held becomes NOARP (if valid) or NONE with the black-hole output and no queue |
| NeighTable.Redrawn | net/core/neighbour.c:839-840 | only reachable_time changes, to a value in [base/2, 3*base/2) |
| NeighTable.Rerandomize | net/core/neighbour.c:838-840 | every listed parameter block, and no other, is redrawn |
| NeighTable.ParmsFor | net/core/neighbour.c:1599-1611 | the first block of the list for the device index (the table's own block for index 0), none iff none matches |
| NeighTable.Table.constructor | net/core/neighbour.c:1688-1733 | the table starts with two empty buckets, the table's own live parameter block with a drawn reachable time, and no entries |
| NeighTable.Table.Lookup | net/core/neighbour.c:444-465 | a hit is the linked entry for (key, dev) and gains a reference; a miss iff no linked entry matches, and nothing changes |
| NeighTable.Table.Hold | include/net/neighbour.h:352 | one more reference on the entry |
| NeighTable.Table.Clone | include/net/neighbour.h:345-350 | returns its argument; a reference is taken on a non-null entry |
| NeighTable.Table.Release | include/net/neighbour.h:339-343 | the last reference destroys the entry (which is then unlinked and has no timer) and purges its queue; any other only drops the count |
| NeighTable.Table.Destroy | net/core/neighbour.c:733-771 | the entry is freed, its queue purged and the entry count decremented |
| NeighTable.Table.HashGrow | net/core/neighbour.c:394-435 | with a new salt the buckets become the regrouped chains of the new size, with the same linked entries; on allocation failure nothing changes |
| NeighTable.Table.Sweep | net/core/neighbour.c:149-171 | one pass applies the fate to every linked entry, keeps survivors in order, and keeps the entry count |
| NeighTable.Table.ForcedGc | net/core/neighbour.c:138-178 | exactly the linked entries only the table holds and that are not permanent are destroyed, the rest untouched; every chain keeps its surviving entries in their order; the result says whether anything was reclaimed; last_flush = now |
| NeighTable.Table.PeriodicWork | net/core/neighbour.c:815-899 | parameter blocks are redrawn every 300 seconds, then every chain is swept with the periodic fate, keeping its surviving entries in their order |
| NeighTable.Table.Redraw | net/core/neighbour.c:835-841 | after RAND_INTERVAL every listed block is redrawn and the time recorded; otherwise nothing changes |
| NeighTable.Table.FlushDev | net/core/neighbour.c:214-253 | every linked entry of the device (of every device when none is given) is unlinked; no linked entry of it remains; the other entries keep their order in every chain |
| NeighTable.Table.ChangeAddr | net/core/neighbour.c:259-264 | the device's entries are flushed, the others keeping their chain order |
| NeighTable.Table.Ifdown | net/core/neighbour.c:284-294 | the device's entries and proxy entries are flushed, the others keeping their chain order; the proxy timer stopped and the delay queue purged |
| NeighTable.Table.Take | net/core/neighbour.c:321-357 | a fresh entry under a new identity, or on allocator failure the count taken for it is given back |
| NeighTable.Table.Admit | net/core/neighbour.c:311-318 | forced GC runs iff it is due, and the entry is refused iff GC reclaimed nothing and the table held gc_thresh3 entries; the slab only loses entries |
| NeighTable.Table.Alloc | net/core/neighbour.c:302-358 | forced GC runs iff entries >= gc_thresh3, or >= gc_thresh2 with a flush older than five seconds; allocation fails iff the allocator fails or GC reclaimed nothing and entries >= gc_thresh3; the count is then unchanged; the slab gains at most the new entry |
| NeighTable.Table.GrowIfFull | net/core/neighbour.c:544-545 | a table holding more entries than buckets doubles, keeping its linked entries |
| NeighTable.Table.Link | net/core/neighbour.c:563-566 | the entry is linked at the head of its bucket and takes the table's reference |
| NeighTable.Table.Insert | net/core/neighbour.c:541-576 | a released parameter block gives -EINVAL; an existing entry for (key, dev) is returned with one more reference and the new one released; else the new one is linked, no other linked entry having its key |
| NeighTable.Table.FindLinked | net/core/neighbour.c:555-561 | the re-scan finds the linked entry for (key, dev), none iff absent |
| NeighTable.Table.Create | net/core/neighbour.c:499-577 | the result is the linked entry for (key, dev); a new entry holds two references (table and caller), an existing one gains one; -ENOBUFS iff neigh_alloc refuses, the constructor's error iff it fails, -EINVAL iff it chose a released parameter block; on the duplicate path and on every error the new entry is released, so the slab gains at most the returned entry |
| NeighTable.Table.Construct | net/core/neighbour.c:518-539 | the entry is named, built by the constructor and backdated two base reachable times; a failing constructor releases it |
| NeighTable.Table.LookupCreate | include/net/neighbour.h:399-409 | a hit is returned with a reference; on a miss without `creat` nothing is created and the result is null; with `creat` the result is null exactly when neigh_create fails (allocation refused, constructor error, released parameter block), otherwise the new linked entry held for the caller; the slab gains at most the returned entry and the proxy table and parameter blocks are unchanged |
| NeighTable.Table.LookupErrno | include/net/neighbour.h:418-430 | the hit, or, when no entry is linked, neigh_create's result with its error conditions; the slab gains at most the returned entry |
| NeighTable.Table.EventSend | include/net/neighbour.h:369-376 | `used` is stamped; a connected, DELAY or PROBE entry returns 0 unchanged, any other goes through `__neigh_event_send` |
| NeighTable.Table.TimerFire | net/core/neighbour.c:942-1057 | the handler runs with the timer's reference and drops it; the last reference destroys the entry |
| NeighTable.Table.UpdateEntry | net/core/neighbour.c:1190-1350 | neigh_update on a held entry, keeping the caller's reference |
| NeighTable.Table.ParmsClone | include/net/neighbour.h:326-330 | returns the same block with one more reference |
| NeighTable.Table.ParmsPut | include/net/neighbour.h:321-324 | one reference less on the block |
| NeighTable.Table.LookupParms | net/core/neighbour.c:1599-1611 | the list walk computes ParmsFor |
| NeighTable.Table.ParmsRelease | net/core/neighbour.c:1657-1677 | a listed device block is unlinked at its position, the blocks before and after it keeping their order, then marked dead and loses the list's reference; the table's own block, a null block or an unlisted one are ignored |
| NeighTable.Table.PneighLookup | net/core/neighbour.c:617-660 | the answering proxy entry; else with `creat` a new entry for exactly (key, dev) at the head of its bucket, unless allocation or the pconstructor fails |
| NeighTable.Table.PneighDelete | net/core/neighbour.c:664-689 | 0 iff the entry for exactly (key, dev) was present, and then exactly its first occurrence is cut out of its bucket, the rest of that bucket and every other bucket unchanged; otherwise -ENOENT and nothing changes |
| NeighTable.Table.PneighIfdown | net/core/neighbour.c:691-713 | every bucket keeps exactly its survivors; the result is always -ENOENT |
| NeighTable.Table.PneighEnqueue | net/core/neighbour.c:1567-1596 | the queue and timer become what ProxyEnqueue gives |
| NeighTable.Table.ProxyRun | net/core/neighbour.c:1531-1561 | the queue keeps exactly the waiting requests, each due later than now; the timer runs iff requests wait |
| NeighTable.SweepCacheOk | net/core/neighbour.c:138-178 | any sweep keeps the cache well formed |
| NeighTable.ForcedSweepKeeps | net/core/neighbour.c:138-178 | forced GC only removes entries; if it reclaims nothing the table is unchanged |
| NeighTable.FlushLeavesNone | net/core/neighbour.c:214-253 | after a flush no linked entry of the device remains |
| NeighTable.CacheOkSend | net/core/neighbour.c:1065-1138 | the send path keeps the cache well formed |
| NeighTable.CacheOkTimer | net/core/neighbour.c:942-1057 | the timer handler keeps the cache well formed, and the fired timer's reference passes to the handler |
| NeighTable.CacheOkUpdate | net/core/neighbour.c:1190-1350 | neigh_update keeps the cache well formed and the caller's reference |
| NeighTable.ProxyOkLink | net/core/neighbour.c:654-656 | linking a proxy entry nobody answers for keeps every bucket hashed and free of duplicates |
| NeighTable.ProxyOkDelete | net/core/neighbour.c:672-686 | unlinking a proxy entry keeps the proxy table well formed, and no copy of the entry remains |
| NeighTable.SurvivorsOk | net/core/neighbour.c:691-713 | pneigh_ifdown keeps the proxy table well formed |
| ArpWire.Be16 | net/ipv4/arp.c:668-702 | htons: two bytes, most significant first |
| ArpWire.Extract | net/ipv4/arp.c:836-842 | the sender hardware address read has addr_len bytes |
| ArpWire.ExtractEncode | net/ipv4/arp.c:836-842 | decoding an encoded packet gives back its header and exactly the sender hardware address, sender IP and target IP written; the length is arp_hdr_len |
| ArpWire.Put | net/ipv4/arp.c:706-715 | memcpy: the buffer prefix becomes the old prefix followed by the copied bytes |
| ArpWire.Fill | net/ipv4/arp.c:664-715 | the buffer holds exactly the encoded header and the four addresses, addr_len bytes per hardware address |
| ArpWire.Create | net/ipv4/arp.c:621-722 | no packet iff allocation or the link-layer header fails; otherwise the frame with the defaulted addresses and type-mapped header, of length arp_hdr_len |
| ArpWire.Send | net/ipv4/arp.c:737-761 | nothing on a NOARP device, otherwise what arp_create builds |
| ArpWire.CreatedIsAccepted | net/ipv4/arp.c:1027-1039 | a request or reply from arp_create passes arp_rcv and arp_process on a device of the same type and address length, which read back the sender and target addresses written |
| ArpNeigh.Overwrite | net/ipv4/arp.c:324-330 | memcpy into the entry's address: the first len bytes are replaced, the rest kept |
| ArpNeigh.Constructor | net/ipv4/arp.c:238-344 | -EINVAL iff the device has no IPv4 configuration; otherwise key, device, address type and ARP parameters are recorded |
| ArpNeigh.ConstructorChoice | net/ipv4/arp.c:320-341 | on a header device, NOARP iff multicast, NOARP/loopback device, broadcast or point-to-point, with the multicast mapping, own address or broadcast address in that order; connected output iff the state is valid |
| ArpNeigh.ConstructorSpecialDevices | net/ipv4/arp.c:269-317 | a device without header ops gives NOARP with direct output; an AX.25-family device keeps its state with the compatibility output |
| ArpNeigh.ProbeKind | net/ipv4/arp.c:402-417 | unicast to the cached address iff probes < ucast_probes; a user-space probe iff within app_probes after that; broadcast otherwise |
| ArpNeigh.AnnounceIsLocal | net/ipv4/arp.c:376-400 | the announced address is the selected one or a local source of the triggering packet; mode 2 always selects; mode 1 keeps a source only on the target's subnet |
| ArpNeigh.Solicit | net/ipv4/arp.c:362-420 | nothing without IPv4 configuration; otherwise the probe kind from the probe count, sent as a request for the entry's key from the device's address |
| ArpNeigh.SolicitationIsUnderstood | net/ipv4/arp.c:415-417 | a solicitation reaches any ARP receiver of the same device type as a request for the entry's key from this device and the announced address |
| ArpNeigh.IgnoreTable | net/ipv4/arp.c:431-464 | modes 0, 4-7 and unknown always reply, 8 never, 1-3 reply iff the target is confirmed in their scope; only mode 2 looks at the sender |
| ArpNeigh.StateToFlags | net/ipv4/arp.c:1161-1169 | ATF_PERM iff PERMANENT; ATF_COM iff valid; no other bit |
| ArpRx.SenderAddr | net/ipv4/arp.c:857-858 | the sender address used has addr_len bytes (the broadcast address on DLCI devices) |
| ArpRx.ProcessGuards | net/ipv4/arp.c:766-899 | no IPv4 configuration or a refused header does nothing; only requests are answered; a probe from 0.0.0.0 never touches the cache |
| ArpRx.ProcessCreates | net/ipv4/arp.c:953-966 | an entry is created only for a unicast sender's reply with arp_accept; a known sender's reply is always learned |
| ArpRx.ProcessAnswers | net/ipv4/arp.c:902-950 | a request for a local address is answered iff arp_ignore and arp_filter allow; a proxied request is queued iff it was not looped back, not for this host and proxy_delay is non-zero |
| ArpRx.ReplyAnswersRequest | net/ipv4/arp.c:921 | the reply, read by the requester, is a reply from this device at the asked-for address to the requester's hardware address |
| ArpRx.LearnState | net/ipv4/arp.c:968-978 | REACHABLE iff a reply to this host, STALE otherwise |
| ArpRx.LearnFlags | net/ipv4/arp.c:979-991 | OVERRIDE iff now is after updated + locktime; no other flag |
| ArpRx.LearnSparesStatic | net/ipv4/arp.c:968-991 | a PERMANENT or NOARP entry refuses the update with -EPERM and stays as it is |
| ArpRx.LearnResolves | net/ipv4/arp.c:968-991 | an unresolved entry takes the sender's address, becomes REACHABLE (reply to host) or STALE, and sends its queue |
| ArpRx.LearnKeepsFirstReply | net/ipv4/arp.c:979-991 | within locktime a valid entry keeps its address whatever a later reply says |
| ArpAdmin.SetOutcome | net/ipv4/arp.c:1146-1157 | an administrative set with an address succeeds, installs the address, and reads back as permanent for ATF_PERM and as complete otherwise (a permanent entry with the same address stays permanent) |
| ArpAdmin.DeleteOutcome | net/ipv4/arp.c:1235-1238 | an administrative delete fails the entry, stops its timer and keeps its address |
| ArpAdmin.NoAddressOutcome | net/ipv4/arp.c:1149-1155 | a set without ATF_COM or ATF_PERM asks for STALE with no address: -EINVAL exactly when the device has addresses and the entry holds no valid one, and a refused update changes nothing |
| ArpAdmin.SetEntryStep | net/ipv4/arp.c:1146-1157 | the entry handed over by __neigh_lookup_errno, updated by the administrative neigh_update and released, leaves the outcome SetEntryDone states: neigh_update's result, no other entry changed, with an address 0 and the entry reading back with it as complete (permanent for ATF_PERM), without one -EINVAL exactly when the entry had no valid address |
| ArpAdmin.ReqGet | net/ipv4/arp.c:1175-1193 | the address, flags and family of the linked entry of (pa, dev), -ENXIO iff there is none; the table is unchanged |
| ArpAdmin.ReqDeleteEntry | net/ipv4/arp.c:1232-1241 | the linked entry is made FAILED with no timer and the result is 0, unless absent or in state NONE/NOARP, which give -ENXIO and no change |
| ArpAdmin.ReqSetEntry | net/ipv4/arp.c:1125-1158 | a family the device cannot take gives -EINVAL; the entry found or made is updated by the administrative neigh_update and released, the result being neigh_update's; an existing entry is reused and no other entry changes; a set with an address succeeds and reads back with that address as complete, permanent for ATF_PERM; a set without one is -EINVAL exactly when the entry has no valid address, and the entry stays |
| ArpAdmin.SetProxy | net/ipv4/arp.c:1065-1076 | -ENXIO iff the named device has no IPv4 configuration; otherwise the proxy switch of that device (or all) is set |
| ArpAdmin.SetProxyUndo | net/ipv4/arp.c:1065-1076 | turning proxy ARP off reaches the same switch as turning it on, and fails alike |
| ArpAdmin.ReqSetPublic | net/ipv4/arp.c:1078-1099 | a mask other than 0 or all ones gives -EINVAL; a complete entry with no device owning its address gives -ENODEV; a host mask leaves the proxy table alone when an entry already answers and otherwise links the new entry at the head of its bucket (0 iff it then answers, else -ENOBUFS and no change); no mask turns proxy ARP on |
| ArpAdmin.ReqDeletePublic | net/ipv4/arp.c:1195-1208 | a host mask cuts the first proxy entry for exactly (pa, dev) out of its bucket, every other entry and bucket unchanged, 0 iff it was there, else -ENOENT; another mask -EINVAL; no mask turns proxy ARP off |
| ArpAdmin.ReqSet | net/ipv4/arp.c:1101-1159 | ATF_PUBL requests have ReqSetPublic's outcome (result, switch, proxy table); otherwise a routing error is returned as is and the rest is ReqSetEntry's outcome: a set with an address succeeds iff an entry was found or made, which then holds the address and reads back complete (permanent for ATF_PERM) |
| ArpAdmin.ReqDelete | net/ipv4/arp.c:1210-1242 | ATF_PUBL requests have ReqDeletePublic's outcome (result, switch, proxy table); otherwise 0 iff the entry was found in a state other than NONE/NOARP, and then it alone changes, by the administrative neigh_update to FAILED with no timer; else -ENXIO (or the routing error) and no change |
| ArpFormat.HexReadsBack | net/ipv4/arp.c:1421-1428 | the hex text reads back as exactly the bytes shown |
| ArpFormat.HexLength | net/ipv4/arp.c:1421-1428 | three characters per byte, less the last separator |
| ArpFormat.FormatHex | net/ipv4/arp.c:1421-1428 | the column shows the first min(addr_len, 9) bytes as hex pairs, within the 30-byte buffer |
| ArpFormat.Ax2Asc2 | net/ipv4/arp.c:1374-1400 | the buffer holds the shifted callsign without spaces, '-', the SSID in decimal and a NUL; the result is "*" when the buffer starts with NUL or '-', else the buffer |
| ArpFormat.CallsignShown | net/ipv4/arp.c:1374-1400 | an encoded callsign shows as itself, '-' and its SSID |
| ArpFormat.SsidReadsBack | net/ipv4/arp.c:1387-1392 | the SSID digits read back as the SSID |
| ArpFormat.FormatHwAsWritten | net/ipv4/arp.c:1416-1431 | as written, AX.25/NET/ROM devices print the buffer ax2asc2 filled rather than its result |
| ArpFormat.BlankCallsignShown | net/ipv4/arp.c:1416-1418 | a blank callsign prints "-0" where ax2asc2 returns "*" |
| ArpFormat.FormatHw | net/ipv4/arp.c:1416-1431 | the column as intended: ax2asc2's result for AX.25/NET/ROM, the hex pairs otherwise |

## Left out

- Locking, RCU, atomics and `cond_resched`: the model is sequential.
  - The lock drop around callbacks in `neigh_update` and
    `neigh_timer_handler` is not modelled.
- Statistics counters, netlink notification and the netlink and sysctl
  handlers are not modelled:
  - `neigh_add`, `neigh_delete`, `neightbl_*`, `__neigh_notify`,
    `neigh_update_notify`;
  - seq_file iteration;
  - network namespaces.

  `notify` is returned as a flag.
- Several neighbour.c functions are not modelled:
  - `neigh_lookup_nodev`, `neigh_parms_alloc`, `neigh_table_clear`,
    `neigh_event_ns`;
  - the output paths (`neigh_resolve_output`, `neigh_connected_output`,
    `neigh_compat_output`);
  - the hh_cache machinery (`neigh_hh_init`, `neigh_update_hhs`).

  `neigh_event_ns` is a lookup followed by `neigh_update`, and both are
  modelled. The others are memory, device or output plumbing, not cache
  logic.
- `neigh_blackhole`, `output`, `solicit` and `error_report` are abstract.
  - `output` is an enumeration of which function an entry would use.
  - Packets they would consume are returned as sequences.
- The packet-queue and routing parts of `arp_process` are not modelled.
  - `ArpRx.Process` decides what happens. The resulting table calls
    (`neigh_event_ns`, `__neigh_lookup`, `pneigh_enqueue`) are the table
    methods above.
  - The routing and inet calls are inputs: `ip_route_input`, `arp_filter`,
    `arp_fwd_proxy`, `inet_addr_type`, `inet_confirm_addr`,
    `inet_select_addr`.
  - Netfilter hooks and `skb_share_check` are not modelled.
- Parts of `arp_ioctl` are not modelled:
  - `copy_from_user`/`copy_to_user`, `capable`;
  - the device lookup by name, the netmask default for ATF_PUBL;
  - the rtnl lock.

  The request handlers are modelled on an already copied request.
- `ArpAdmin.SetProxy`: the proxy_arp switch is returned as a
  `ProxySwitch` value, not stored in the device configuration, which is
  outside the model.
- The configuration is fixed:
  - CONFIG_AX25, CONFIG_NETROM, CONFIG_FDDI, CONFIG_TR and CONFIG_ARPD are
    assumed set: `ArpWire` maps ARPHRD_IEEE802_TR to (ARPHRD_IEEE802,
    ETH_P_IP) as net/ipv4/arp.c:692-697 does under CONFIG_TR, and
    `ArpNeigh.Solicit` reports the application probe (`neigh_app_ns`)
    that net/ipv4/arp.c:409-411 sends only under CONFIG_ARPD;
  - CONFIG_PROC_FS is assumed set, for the `/proc/net/arp` column;
  - HZ is 250;
  - the `/proc` line is modelled only for its hardware-address column.
    `sprintf` of the IP address and the line's layout are not.
- `Proxy.PneighHash` reads the key's last word on a little-endian host.
  `PneighHashByteOrder` proves the bucket does not depend on that.
- `dev_hard_header` is not modelled. Its failure is the input `headerFails`.
- Allocation failures are inputs (`oom`, `growOom`), and so are random
  values and the hash function.
- Jiffies wrap-around is not modelled. `time_after` is a plain comparison.
- `neigh_confirm` (include/net/neighbour.h:354-358) is not modelled as an
  operation: a caller's confirmation is the `confirmed` field, which
  `neigh_update` and the timer read and set.
- `arp_find` (net/ipv4/arp.c:518-550) and `arp_bind_neighbour`
  (net/ipv4/arp.c:557-576) are not modelled: they read the route attached to
  a packet or bind an entry to a routing-cache entry, and routes are outside
  the model. Their table calls are: `__neigh_lookup` with `creat` set
  (`NeighTable.Table.LookupCreate`), `neigh_event_send`
  (`NeighTable.Table.EventSend`) and `__neigh_lookup_errno`
  (`NeighTable.Table.LookupErrno`).
- `NeighTable.Table.Alloc`: the code differs from the usual description.
  - It refuses a new entry only when forced GC reclaimed nothing and the
    count was already at gc_thresh3. It does not refuse when the table is
    merely still over the threshold after reclaiming something.
  - The model follows the code.
- `NeighEntry.Enqueue`: with queue_len 0 the queue still takes one packet.
  The oldest packet is dropped only when the queue is non-empty. The bound
  proved is therefore max(queue_len, 1), as the code behaves.
- Chains: a bucket is `hash % size` with a power-of-two size. That this
  equals `hash & hash_mask` is not proved.

## Findings

| source | as written | input that shows it | evidently intended | confidence | as-written member | corrected member |
|---|---|---|---|---|---|---|
| net/ipv4/arp.c:1417-1418 | the result of `ax2asc2` is discarded and the buffer it filled is printed | an AX.25 entry whose address is six space callsign bytes (0x40 each) and SSID byte 0: the column shows "-0" | the "*" that `ax2asc2` returns for an address without a callsign | low, not executed | ArpFormat.FormatHwAsWritten, ArpFormat.BlankCallsignShown | ArpFormat.FormatHw |
