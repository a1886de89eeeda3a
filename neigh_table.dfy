/**
 * struct neigh_table (net/core/neighbour.c, include/net/neighbour.h): the
 * hash table of neighbour entries with its admission control, growth and
 * garbage collection, the reference counting of entries, the list of
 * parameter blocks, and the proxy table with its delay queue.
 *
 * Entries are records in `slab`, keyed by an identity that stands for the
 * `struct neighbour *`; a bucket is the sequence of identities along its
 * `next` pointers.  An entry stays in `slab` from neigh_alloc until
 * neigh_destroy, linked or not, so `entries` (tbl->entries) equals the
 * size of `slab` between operations.  Randomness (get_random_bytes,
 * net_random), allocation failures and the protocol's constructor are
 * parameters.
 */
module NeighTable {
  import opened Wrappers
  import opened Nud
  import opened NeighEntry
  import opened Chains
  import opened Proxy
  import opened Seqs

  /** Forced garbage collection is due when the count reaches gc_thresh2
      and the last flush is more than five seconds old. */
  const FLUSH_INTERVAL: nat := 5 * HZ
  /** reachable_time is drawn afresh at most every 300 seconds. */
  const RAND_INTERVAL: nat := 300 * HZ

  /** Every entry of `s` is the same entry in `s0`. */
  ghost predicate Within(s: Slab, s0: Slab) {
    forall id :: id in s ==> id in s0 && s[id] == s0[id]
  }

  /** The entries `s` shares with `s0` are unchanged. */
  ghost predicate Agrees(s: Slab, s0: Slab) {
    forall id :: id in s && id in s0 ==> s[id] == s0[id]
  }

  /** Rewriting an identity `s0` does not have keeps the agreement. */
  lemma AgreesAt(s: Slab, s0: Slab, k: Id, v: Neigh)
    requires Agrees(s, s0) && k !in s0
    ensures Agrees(s[k := v], s0)
  {
  }

  /** Reclaiming entries and then adding one under a new identity leaves the
      surviving entries as they were. */
  lemma AgreesFresh(s0: Slab, s1: Slab, k: Id, v: Neigh)
    requires Within(s1, s0) && k !in s0
    ensures Agrees(s1, s0) && Agrees(s1[k := v], s0)
  {
  }

  /** neigh_alloc's test on the count `e` before the new entry: forced GC
      is due at gc_thresh3, or at gc_thresh2 when the last flush is more
      than five seconds old. */
  predicate GcDue(e: int, now: int, lastFlush: int, thresh2: int, thresh3: int) {
    e >= thresh3 || (e >= thresh2 && now > lastFlush + FLUSH_INTERVAL)
  }

  predicate IsPow2(n: nat)
    decreases n
  {
    n == 1 || (n >= 2 && n % 2 == 0 && IsPow2(n / 2))
  }

  /** The well-formedness of the neighbour cache proper: well-formed chains
      of a power-of-two number of buckets, every entry keeping its reference
      discipline, pointing at a known parameter block and allocated before
      `next`. */
  ghost predicate CacheOk(s: Slab, b: seq<seq<Id>>, h: HashFn, rnd: nat, ps: map<ParmsId, Parms>, next: Id) {
    && ChainsOk(s, b, h, rnd)
    && IsPow2(|b|)
    && (forall id :: id in s ==> EntryOk(s[id]) && s[id].parms in ps && id < next)
  }

  /** The parameter list: tbl->parms first, no block twice, none released. */
  ghost predicate ParmsOk(ps: map<ParmsId, Parms>, list: seq<ParmsId>) {
    && |list| > 0
    && Distinct(list)
    && (forall i :: 0 <= i < |list| ==> list[i] in ps && !ps[list[i]].dead)
  }

  /** The proxy table: sixteen buckets, each entry in the bucket of its key,
      no (key, dev) pair twice. */
  ghost predicate ProxyOk(ph: seq<seq<PEntry>>) {
    && |ph| == PNEIGH_HASHMASK + 1
    && (forall i :: 0 <= i < |ph| ==> Hashed(ph[i], i) && Unique(ph[i]))
  }

  /** Every entry of the chain belongs in bucket `i`. */
  predicate Hashed(c: seq<PEntry>, i: nat) {
    forall e :: e in c ==> |e.key| >= 4 && PneighHash(e.key) == i
  }

  predicate Unique(c: seq<PEntry>) {
    forall p, q :: 0 <= p < q < |c| ==> c[p] != c[q]
  }

  ghost predicate TableOk(s: Slab, b: seq<seq<Id>>, h: HashFn, rnd: nat, ps: map<ParmsId, Parms>, list: seq<ParmsId>,
                          next: Id, ph: seq<seq<PEntry>>, q: seq<Delayed>, timer: Option<int>) {
    && CacheOk(s, b, h, rnd, ps, next)
    && ParmsOk(ps, list)
    && ProxyOk(ph)
    && TimerCovers(q, timer)
  }

  /** neigh_create links a new entry: it is no longer dead and the table
      holds a reference on it. */
  function Linked(n: Neigh): Neigh {
    n.(dead := false, refcnt := n.refcnt + 1)
  }

  /** neigh_hold. */
  function Held(n: Neigh): Neigh {
    n.(refcnt := n.refcnt + 1)
  }

  /** neigh_release of a reference that is not the last. */
  function Dropped(n: Neigh): Neigh {
    n.(refcnt := n.refcnt - 1)
  }

  /** neigh_event_send stamps the entry used. */
  function Used(n: Neigh, now: int): Neigh {
    n.(used := now)
  }

  /** A timer that has fired is no longer pending; its reference passes to the handler. */
  function Fired(n: Neigh): Neigh {
    n.(timer := None)
  }

  /** neigh_create names the fresh entry after (key, dev). */
  function Named(n: Neigh, key: Key, dev: Dev): Neigh {
    n.(key := key, dev := dev)
  }

  /** neigh_create backdates the confirmation by two base reachable times,
      so that the new entry is not taken for confirmed. */
  function Backdated(n: Neigh, base: nat, now: int): Neigh {
    n.(confirmed := now - base * 2)
  }

  /** neigh_parms_clone. */
  function ParmsHeld(p: Parms): Parms {
    p.(holders := p.holders + 1)
  }

  /** neigh_parms_put. */
  function ParmsDropped(p: Parms): Parms {
    p.(holders := p.holders - 1)
  }

  /** neigh_parms_release: marked dead, and the list's reference dropped. */
  function ParmsReleased(p: Parms): Parms {
    p.(dead := true, holders := p.holders - 1)
  }

  /** The record neigh_alloc hands out: zeroed, NONE, black-holed, holding
      the table's default parameters, one reference, and not yet linked. */
  function Fresh(pid: ParmsId, now: int): (n: Neigh)
    ensures EntryOk(n) && n.dead && n.refcnt == 1 && n.timer.None? && n.nudState == NONE
  {
    Neigh([], Dev(0, 0), pid, 0, false, NONE, true, 0, now, 0, now,
      seq(MAX_ADDR_LEN, _ => 0 as byte), [], 1, None, Blackhole, NoOps)
  }

  // ---------------------------------------------------------------------
  // What each sweep does with one entry
  // ---------------------------------------------------------------------

  /** neigh_forced_gc: an entry nobody else holds and that is not permanent
      is unlinked and destroyed; every other entry stays as it is. */
  function ForcedFate(n: Neigh): (r: Fate)
    ensures EntryOk(n) && !n.dead ==> FateKeeps(n, r)
    ensures r.Freed? || r == Stay(n)
  {
    if n.refcnt == 1 && n.nudState != PERMANENT then Freed else Stay(n)
  }

  /** The gc_staletime of an entry's parameter block. */
  function Staletime(ps: map<ParmsId, Parms>, pid: ParmsId): nat {
    if pid in ps then ps[pid].gcStaletime else 0
  }

  /** neigh_periodic_work: permanent entries and entries with a timer state
      are left alone; on the others `used` catches up with `confirmed`, and
      an entry nobody else holds is destroyed when it has FAILED or has not
      been used for gc_staletime. */
  function PeriodicFate(n: Neigh, staletime: nat, now: int): (r: Fate)
    ensures EntryOk(n) && !n.dead ==> FateKeeps(n, r)
    ensures n.nudState == PERMANENT || InTimer(n.nudState) ==> r == Stay(n)
    ensures r.Stay? ==> r.n == n.(used := Max(n.used, n.confirmed)) || r.n == n
    ensures r.Freed? <==>
      && !(n.nudState == PERMANENT || InTimer(n.nudState))
      && n.refcnt == 1 && (n.nudState == FAILED || now > Max(n.used, n.confirmed) + staletime)
    ensures !r.Stray?
  {
    if n.nudState == PERMANENT || InTimer(n.nudState) then Stay(n)
    else
      var m := if n.used < n.confirmed then n.(used := n.confirmed) else n;
      if m.refcnt == 1 && (m.nudState == FAILED || now > m.used + staletime) then Freed
      else Stay(m)
  }

  /** neigh_flush_dev: entries of other devices stay; an entry of the
      device (of any device when none is given) loses its timer and is
      unlinked; if others still hold it, it becomes a stray entry with an
      empty queue, the black-hole output and state NOARP (if it was valid)
      or NONE, and gives up the table's reference; otherwise it is destroyed. */
  function FlushFate(n: Neigh, dev: Option<Dev>): (r: Fate)
    ensures EntryOk(n) && !n.dead ==> FateKeeps(n, r)
    ensures dev.Some? && n.dev != dev.value ==> r == Stay(n)
    ensures dev.None? || n.dev == dev.value ==> !r.Stay?
    ensures r.Stray? ==> r.n.dead
    ensures EntryOk(n) && r.Stray? ==> r.n.arpQueue == [] && r.n.output == Blackhole && r.n.timer.None?
    ensures r.Stray? ==> r.n.nudState == (if IsValid(n.nudState) then NOARP else NONE)
  {
    if dev.Some? && n.dev != dev.value then Stay(n)
    else
      var m := DelTimer(n).(dead := true);
      if m.refcnt != 1 then
        var st := if IsValid(m.nudState) then NOARP else NONE;
        Stray(m.(arpQueue := [], output := Blackhole, nudState := st, refcnt := m.refcnt - 1))
      else Freed
  }

  /** The periodic sweep's decision, with the stale time of each entry's block. */
  function PeriodicFateIn(ps: map<ParmsId, Parms>, now: int): Neigh -> Fate {
    (n: Neigh) => PeriodicFate(n, Staletime(ps, n.parms), now)
  }

  /** The flush's decision for a device (every device when none is given). */
  function FlushFateOf(dev: Option<Dev>): Neigh -> Fate {
    (n: Neigh) => FlushFate(n, dev)
  }

  /** An entry neigh_forced_gc can reclaim is linked. */
  ghost predicate Reclaimable(s: Slab, b: seq<seq<Id>>)
    requires forall i, j :: 0 <= i < |b| && 0 <= j < |b[i]| ==> b[i][j] in s
  {
    exists i :: 0 <= i < |b| && !AllStay(s, b[i], ForcedFate)
  }

  // ---------------------------------------------------------------------
  // Preservation of the cache invariant by single-entry edits
  // ---------------------------------------------------------------------

  lemma CacheOkReplace(s: Slab, b: seq<seq<Id>>, h: HashFn, rnd: nat, ps: map<ParmsId, Parms>, next: Id, id: Id, m: Neigh)
    requires CacheOk(s, b, h, rnd, ps, next)
    requires id in s && SameKey(m, s[id]) && m.dead == s[id].dead && EntryOk(m) && m.parms in ps
    ensures CacheOk(s[id := m], b, h, rnd, ps, next)
  {
    ChainsOkReplace(s, b, h, rnd, id, m);
  }

  lemma CacheOkUnlinked(s: Slab, b: seq<seq<Id>>, h: HashFn, rnd: nat, ps: map<ParmsId, Parms>, next: Id, id: Id, m: Neigh)
    requires CacheOk(s, b, h, rnd, ps, next)
    requires m.dead && (id in s ==> s[id].dead) && EntryOk(m) && m.parms in ps && id < next
    ensures CacheOk(s[id := m], b, h, rnd, ps, next)
    ensures CacheOk(s - {id}, b, h, rnd, ps, next)
  {
    ChainsOkUnlinked(s, b, h, rnd, id, m);
  }

  /** Changing parameter blocks without adding or removing any keeps the cache invariant. */
  lemma CacheOkParms(s: Slab, b: seq<seq<Id>>, h: HashFn, rnd: nat, ps: map<ParmsId, Parms>, ps2: map<ParmsId, Parms>, next: Id)
    requires CacheOk(s, b, h, rnd, ps, next) && ps.Keys == ps2.Keys
    ensures CacheOk(s, b, h, rnd, ps2, next)
  {
    assert forall pid :: pid in ps ==> pid in ps2;
  }

  /** A parameter block with reachable_time drawn afresh from its base. */
  function Redrawn(p: Parms, rand: nat): (r: Parms)
    ensures r == p.(reachableTime := r.reachableTime)
    ensures p.baseReachableTime > 0 ==> p.baseReachableTime / 2 <= r.reachableTime < p.baseReachableTime / 2 + p.baseReachableTime
  {
    p.(reachableTime := RandReachTime(p.baseReachableTime, rand))
  }

  /** neigh_periodic_work's refresh of reachable_time on every parameter
      block of the list; `rand` is the random value drawn for each block. */
  method Rerandomize(ps0: map<ParmsId, Parms>, list: seq<ParmsId>, rand: ParmsId -> nat) returns (ps: map<ParmsId, Parms>)
    requires forall i :: 0 <= i < |list| ==> list[i] in ps0
    ensures ps.Keys == ps0.Keys
    ensures forall pid :: pid in ps0 ==> ps[pid] == (if pid in list then Redrawn(ps0[pid], rand(pid)) else ps0[pid])
  {
    ps := ps0;
    for i := 0 to |list|
      invariant ps.Keys == ps0.Keys
      invariant forall pid :: pid in ps0 ==> ps[pid] == (if pid in list[..i] then Redrawn(ps0[pid], rand(pid)) else ps0[pid])
    {
      var pid := list[i];
      assert list[..i + 1] == list[..i] + [pid];
      ps := ps[pid := Redrawn(ps[pid], rand(pid))];
    }
    assert list[..|list|] == list;
  }

  /** The first parameter block of the list for a device index: the block
      of that device, or the table's own block for index 0. */
  function ParmsFor(ps: map<ParmsId, Parms>, list: seq<ParmsId>, ifindex: nat): (r: Option<ParmsId>)
    requires forall i :: 0 <= i < |list| ==> list[i] in ps
    ensures r.Some? ==> r.value in list && ParmsMatch(ps[r.value], ifindex)
    ensures r.None? <==> forall i :: 0 <= i < |list| ==> !ParmsMatch(ps[list[i]], ifindex)
  {
    if |list| == 0 then None
    else if ParmsMatch(ps[list[0]], ifindex) then Some(list[0])
    else
      var r := ParmsFor(ps, list[1..], ifindex);
      assert forall i :: 1 <= i < |list| ==> list[i] == list[1..][i - 1];
      r
  }

  predicate ParmsMatch(p: Parms, ifindex: nat) {
    p.ifindex == Some(ifindex) || (p.ifindex.None? && ifindex == 0)
  }

  /** The protocol constructor (tbl->constructor, then parms->neigh_setup)
      sets the address type, state, ops, output, hardware address and
      parameter block of a fresh entry, or fails with an error. */
  function Constructed(n: Neigh, m: Neigh): Neigh {
    n.(parms := m.parms, ntype := m.ntype, nudState := m.nudState, ops := m.ops, output := m.output, ha := m.ha)
  }

  class Table {
    var slab: Slab
    var buckets: seq<seq<Id>>
    var hashRnd: nat
    const hash: HashFn
    var entries: int
    var lastFlush: int
    var lastRand: int
    const gcThresh2: int
    const gcThresh3: int
    var parms: map<ParmsId, Parms>
    var parmsList: seq<ParmsId>
    var nextId: Id
    var phash: seq<seq<PEntry>>
    var proxyQueue: seq<Delayed>
    var proxyTimer: Option<int>

    ghost predicate Valid()
      reads this
    {
      TableOk(slab, buckets, hash, hashRnd, parms, parmsList, nextId, phash, proxyQueue, proxyTimer)
    }

    /** tbl->entries counts every allocated, not yet destroyed entry. */
    ghost predicate Counted()
      reads this
    {
      entries == |slab|
    }

    /** The proxy side and the parameter list are untouched. */
    twostate predicate SameProxyAndParms()
      reads this
    {
      && phash == old(phash) && proxyQueue == old(proxyQueue) && proxyTimer == old(proxyTimer)
      && parms == old(parms) && parmsList == old(parmsList)
    }

    /** The chains, the salt and the table clocks are untouched. */
    twostate predicate SameChains()
      reads this
    {
      && buckets == old(buckets) && hashRnd == old(hashRnd) && lastFlush == old(lastFlush)
      && lastRand == old(lastRand) && nextId == old(nextId)
    }

    /** neigh_table_init_no_netlink: two empty buckets, sixteen empty proxy
        buckets, the table's own parameter block, no entries. */
    constructor (h: HashFn, rnd: nat, thresh2: int, thresh3: int, p: Parms, reachRand: nat, now: int)
      ensures Valid() && Counted()
      ensures hash == h && gcThresh2 == thresh2 && gcThresh3 == thresh3
      ensures |buckets| == 2 && slab == map[] && parmsList == [0] && 0 in parms && !parms[0].dead
      ensures parms[0].reachableTime == RandReachTime(p.baseReachableTime, reachRand)
      ensures lastFlush == now && lastRand == now + parms[0].reachableTime * 20
    {
      var p0 := p.(dead := false, holders := 1, ifindex := None,
                   reachableTime := RandReachTime(p.baseReachableTime, reachRand));
      slab := map[];
      buckets := [[], []];
      hashRnd := rnd;
      hash := h;
      entries := 0;
      gcThresh2 := thresh2;
      gcThresh3 := thresh3;
      parms := map[0 := p0];
      parmsList := [0];
      nextId := 0;
      phash := seq(PNEIGH_HASHMASK + 1, _ => []);
      proxyQueue := [];
      proxyTimer := None;
      lastFlush := now;
      lastRand := now + p0.reachableTime * 20;
      new;
      assert IsPow2(2) by { assert IsPow2(1); }
    }

    // -------------------------------------------------------------------
    // neigh_lookup, neigh_hold, neigh_clone
    // -------------------------------------------------------------------

    /** neigh_lookup: walk the bucket of (key, dev); on a hit take a
        reference on the entry. */
    method Lookup(key: Key, dev: Dev) returns (r: Option<Id>)
      requires Valid()
      modifies this
      ensures Valid() && SameChains() && SameProxyAndParms() && entries == old(entries)
      ensures r.Some? ==> r.value in old(slab) && !old(slab)[r.value].dead && Matches(old(slab)[r.value], key, dev)
      ensures r.Some? ==> slab == old(slab)[r.value := Held(old(slab)[r.value])]
      ensures r.None? ==> slab == old(slab)
      ensures r.None? <==> forall id :: id in old(slab) && !old(slab)[id].dead ==> !Matches(old(slab)[id], key, dev)
    {
      r := FindLinked(key, dev);
      if r.Some? {
        Hold(r.value);
      }
    }

    /** neigh_hold: take one more reference. */
    method Hold(id: Id)
      requires Valid() && id in slab
      modifies this
      ensures Valid() && SameChains() && SameProxyAndParms() && entries == old(entries)
      ensures slab == old(slab)[id := Held(old(slab)[id])]
    {
      var n := slab[id];
      CacheOkReplace(slab, buckets, hash, hashRnd, parms, nextId, id, Held(n));
      slab := slab[id := Held(n)];
    }

    /** neigh_clone: a reference for a possibly null entry. */
    method Clone(r: Option<Id>) returns (c: Option<Id>)
      requires Valid() && (r.Some? ==> r.value in slab)
      modifies this
      ensures Valid() && SameChains() && SameProxyAndParms() && entries == old(entries)
      ensures c == r
      ensures r.None? ==> slab == old(slab)
      ensures r.Some? ==> slab == old(slab)[r.value := Held(old(slab)[r.value])]
    {
      if r.Some? {
        Hold(r.value);
      }
      c := r;
    }

    // -------------------------------------------------------------------
    // neigh_release, neigh_destroy
    // -------------------------------------------------------------------

    /** neigh_release: drop the caller's reference; the last one destroys
        the entry.  The caller's reference guarantees that an entry whose
        count reaches zero is no longer linked and has no timer. */
    method Release(id: Id) returns (purged: seq<Packet>)
      requires Valid() && id in slab && CallerHolds(slab[id])
      modifies this
      ensures Valid() && SameChains() && SameProxyAndParms()
      ensures entries - |slab| == old(entries - |slab|)
      ensures old(slab)[id].refcnt == 1 ==>
        && old(slab)[id].dead && old(slab)[id].timer.None?
        && slab == old(slab) - {id} && entries == old(entries) - 1 && purged == old(slab)[id].arpQueue
      ensures old(slab)[id].refcnt > 1 ==>
        slab == old(slab)[id := Dropped(old(slab)[id])]
        && entries == old(entries) && purged == []
    {
      var n := slab[id];
      if n.refcnt == 1 {
        purged := Destroy(id);
      } else {
        var m := Dropped(n);
        CacheOkReplace(slab, buckets, hash, hashRnd, parms, nextId, id, m);
        slab := slab[id := m];
        purged := [];
      }
    }

    /** neigh_destroy: purge the queue, drop the entry's reference on its
        parameter block (counted from the table) and free the entry. */
    method Destroy(id: Id) returns (purged: seq<Packet>)
      requires Valid() && id in slab && slab[id].dead && slab[id].timer.None?
      modifies this
      ensures Valid() && SameChains() && SameProxyAndParms()
      ensures slab == old(slab) - {id} && entries == old(entries) - 1
      ensures purged == old(slab)[id].arpQueue
    {
      purged := slab[id].arpQueue;
      CacheOkUnlinked(slab, buckets, hash, hashRnd, parms, nextId, id, slab[id]);
      slab := slab - {id};
      entries := entries - 1;
    }

    // -------------------------------------------------------------------
    // neigh_hash_grow
    // -------------------------------------------------------------------

    /** neigh_hash_grow: draw a new salt and move every linked entry to its
        bucket in a table of `size` buckets.  If the new bucket array cannot
        be allocated (`oom`), nothing changes. */
    method HashGrow(size: nat, rnd: nat, oom: bool)
      requires Valid() && IsPow2(size)
      modifies this
      ensures Valid() && SameProxyAndParms()
      ensures slab == old(slab) && entries == old(entries) && nextId == old(nextId)
      ensures lastFlush == old(lastFlush) && lastRand == old(lastRand)
      ensures oom ==> buckets == old(buckets) && hashRnd == old(hashRnd)
      ensures !oom ==> hashRnd == rnd && buckets == Regroup(slab, old(buckets), hash, rnd, size)
      ensures !oom ==> |buckets| == size && ChainIds(buckets) == ChainIds(old(buckets))
    {
      if oom {
        return;
      }
      RegroupOk(slab, buckets, hash, hashRnd, rnd, size);
      var nb := Rehash(slab, buckets, hash, rnd, size);
      hashRnd := rnd;
      buckets := nb;
    }

    // -------------------------------------------------------------------
    // The sweeps: neigh_forced_gc, neigh_periodic_work, neigh_flush_dev
    // -------------------------------------------------------------------

    /** One pass over every chain, applying `f` to each linked entry. */
    method Sweep(f: Neigh -> Fate) returns (unlinked: bool)
      requires Valid() && FateOk(f)
      modifies this
      ensures Valid() && SameProxyAndParms()
      ensures hashRnd == old(hashRnd) && lastFlush == old(lastFlush) && lastRand == old(lastRand) && nextId == old(nextId)
      ensures slab == SweepOn(old(slab), f, ChainIds(old(buckets)))
      ensures |buckets| == |old(buckets)|
      ensures forall i :: 0 <= i < |buckets| ==> buckets[i] == Kept(old(slab), old(buckets)[i], f)
      ensures unlinked <==> exists i :: 0 <= i < |old(buckets)| && !AllStay(old(slab), old(buckets)[i], f)
      ensures entries - |slab| == old(entries - |slab|)
    {
      var s, nb, u, freed := SweepAll(slab, buckets, hash, hashRnd, f);
      SweepCacheOk(slab, buckets, hash, hashRnd, f, parms, nextId, s, nb);
      slab, buckets, unlinked := s, nb, u;
      entries := entries - freed;
    }

    /** neigh_forced_gc: reclaim every linked entry nobody else holds,
        except permanent ones; report whether anything was reclaimed. */
    method ForcedGc(now: int) returns (shrunk: bool)
      requires Valid()
      modifies this
      ensures Valid() && SameProxyAndParms()
      ensures hashRnd == old(hashRnd) && lastRand == old(lastRand) && nextId == old(nextId)
      ensures lastFlush == now
      ensures slab == SweepOn(old(slab), ForcedFate, ChainIds(old(buckets)))
      ensures |buckets| == |old(buckets)|
      ensures forall i :: 0 <= i < |buckets| ==> buckets[i] == Kept(old(slab), old(buckets)[i], ForcedFate)
      ensures Within(slab, old(slab))
      ensures shrunk <==> Reclaimable(old(slab), old(buckets))
      ensures !shrunk ==> slab == old(slab) && buckets == old(buckets)
      ensures entries - |slab| == old(entries - |slab|)
    {
      ForcedFateOk();
      var s, nb, u, freed := SweepAll(slab, buckets, hash, hashRnd, ForcedFate);
      SweepCacheOk(slab, buckets, hash, hashRnd, ForcedFate, parms, nextId, s, nb);
      ForcedSweepKeeps(slab, buckets, hash, hashRnd, u, nb);
      slab, buckets, shrunk := s, nb, u;
      entries := entries - freed;
      lastFlush := now;
    }

    /** neigh_periodic_work: every 300 seconds redraw reachable_time for
        each parameter block, then sweep every chain.  `rand` is the
        random value drawn for each block. */
    method PeriodicWork(now: int, rand: ParmsId -> nat)
      requires Valid()
      modifies this
      ensures Valid()
      ensures phash == old(phash) && proxyQueue == old(proxyQueue) && proxyTimer == old(proxyTimer)
      ensures parmsList == old(parmsList) && parms.Keys == old(parms).Keys
      ensures hashRnd == old(hashRnd) && lastFlush == old(lastFlush) && nextId == old(nextId)
      ensures now > old(lastRand) + RAND_INTERVAL ==> lastRand == now
      ensures now > old(lastRand) + RAND_INTERVAL ==>
        forall pid :: pid in old(parms) ==> parms[pid] == (if pid in parmsList then Redrawn(old(parms)[pid], rand(pid)) else old(parms)[pid])
      ensures now <= old(lastRand) + RAND_INTERVAL ==> lastRand == old(lastRand) && parms == old(parms)
      ensures var ps := parms;
        slab == SweepOn(old(slab), PeriodicFateIn(ps, now), ChainIds(old(buckets)))
      ensures |buckets| == |old(buckets)|
      ensures var ps := parms;
        forall i :: 0 <= i < |buckets| ==> buckets[i] == Kept(old(slab), old(buckets)[i], PeriodicFateIn(ps, now))
      ensures entries - |slab| == old(entries - |slab|)
    {
      Redraw(now, rand);
      PeriodicFateOk(parms, now);
      var _ := Sweep(PeriodicFateIn(parms, now));
    }

    /** The first part of neigh_periodic_work: once RAND_INTERVAL has
        passed, every listed parameter block draws a new reachable_time. */
    method Redraw(now: int, rand: ParmsId -> nat)
      requires Valid()
      modifies this
      ensures Valid()
      ensures phash == old(phash) && proxyQueue == old(proxyQueue) && proxyTimer == old(proxyTimer)
      ensures slab == old(slab) && buckets == old(buckets) && entries == old(entries)
      ensures parmsList == old(parmsList) && parms.Keys == old(parms).Keys
      ensures hashRnd == old(hashRnd) && lastFlush == old(lastFlush) && nextId == old(nextId)
      ensures now > old(lastRand) + RAND_INTERVAL ==> lastRand == now
      ensures now > old(lastRand) + RAND_INTERVAL ==>
        forall pid :: pid in old(parms) ==> parms[pid] == (if pid in parmsList then Redrawn(old(parms)[pid], rand(pid)) else old(parms)[pid])
      ensures now <= old(lastRand) + RAND_INTERVAL ==> lastRand == old(lastRand) && parms == old(parms)
    {
      if now > lastRand + RAND_INTERVAL {
        lastRand := now;
        var ps := Rerandomize(parms, parmsList, rand);
        CacheOkParms(slab, buckets, hash, hashRnd, parms, ps, nextId);
        RerandomizeKeepsList(parms, ps, parmsList, rand);
        parms := ps;
      }
    }

    /** neigh_flush_dev: unlink every entry of the device (of every device
        when none is given). */
    method FlushDev(dev: Option<Dev>)
      requires Valid()
      modifies this
      ensures Valid() && SameProxyAndParms()
      ensures hashRnd == old(hashRnd) && lastFlush == old(lastFlush) && lastRand == old(lastRand) && nextId == old(nextId)
      ensures slab == SweepOn(old(slab), FlushFateOf(dev), ChainIds(old(buckets)))
      ensures |buckets| == |old(buckets)|
      ensures forall i :: 0 <= i < |buckets| ==> buckets[i] == Kept(old(slab), old(buckets)[i], FlushFateOf(dev))
      ensures forall id :: id in slab && !slab[id].dead ==> dev.Some? && slab[id].dev != dev.value
      ensures entries - |slab| == old(entries - |slab|)
    {
      FlushFateOk(dev);
      ghost var s0, b0 := slab, buckets;
      var _ := Sweep(FlushFateOf(dev));
      FlushLeavesNone(s0, b0, hash, hashRnd, dev);
    }

    /** neigh_changeaddr: the device's address changed. */
    method ChangeAddr(dev: Dev)
      requires Valid()
      modifies this
      ensures Valid() && SameProxyAndParms()
      ensures slab == SweepOn(old(slab), FlushFateOf(Some(dev)), ChainIds(old(buckets)))
      ensures |buckets| == |old(buckets)|
      ensures forall i :: 0 <= i < |buckets| ==> buckets[i] == Kept(old(slab), old(buckets)[i], FlushFateOf(Some(dev)))
      ensures forall id :: id in slab && !slab[id].dead ==> slab[id].dev != dev
      ensures entries - |slab| == old(entries - |slab|)
    {
      FlushDev(Some(dev));
    }

    /** neigh_ifdown: flush the device's entries and its proxy entries, stop
        the proxy timer and free every delayed request. */
    method Ifdown(dev: Option<Dev>) returns (err: int, purged: seq<Delayed>)
      requires Valid()
      modifies this
      ensures Valid()
      ensures slab == SweepOn(old(slab), FlushFateOf(dev), ChainIds(old(buckets)))
      ensures |buckets| == |old(buckets)|
      ensures forall i :: 0 <= i < |buckets| ==> buckets[i] == Kept(old(slab), old(buckets)[i], FlushFateOf(dev))
      ensures forall id :: id in slab && !slab[id].dead ==> dev.Some? && slab[id].dev != dev.value
      ensures |phash| == |old(phash)| && forall i :: 0 <= i < |phash| ==> phash[i] == Survivors(old(phash)[i], dev)
      ensures proxyQueue == [] && proxyTimer.None?
      ensures purged == old(proxyQueue)
      ensures parms == old(parms) && parmsList == old(parmsList)
      ensures entries - |slab| == old(entries - |slab|)
      ensures err == 0
    {
      FlushDev(dev);
      var _ := PneighIfdown(dev);
      proxyTimer := None;
      purged := proxyQueue;
      proxyQueue := [];
      err := 0;
    }

    // -------------------------------------------------------------------
    // neigh_alloc, neigh_create
    // -------------------------------------------------------------------

    /** The end of neigh_alloc: a fresh entry under the next identity when
        `ok`, otherwise the count taken for it is given back. */
    method Take(ok: bool, now: int) returns (r: Option<Id>)
      requires Valid()
      modifies this
      ensures Valid() && SameProxyAndParms()
      ensures buckets == old(buckets) && hashRnd == old(hashRnd) && lastFlush == old(lastFlush) && lastRand == old(lastRand)
      ensures ok ==> r == Some(old(nextId)) && old(nextId) !in old(slab) && entries == old(entries)
      ensures ok ==> slab == old(slab)[old(nextId) := Fresh(parmsList[0], now)]
      ensures !ok ==> r.None? && slab == old(slab) && entries == old(entries) - 1
    {
      if ok {
        var id := nextId;
        CacheOkFresh(slab, buckets, hash, hashRnd, parms, id, Fresh(parmsList[0], now));
        nextId := nextId + 1;
        slab := slab[id := Fresh(parmsList[0], now)];
        r := Some(id);
      } else {
        entries := entries - 1;
        r := None;
      }
    }

    /** neigh_alloc refuses an entry: the allocator fails, or forced GC was
        due, reclaimed nothing and the table holds gc_thresh3 entries. */
    ghost predicate AllocRefused(now: int, oom: bool)
      reads this
      requires Valid()
    {
      oom || (GcDue(entries, now, lastFlush, gcThresh2, gcThresh3) && !Reclaimable(slab, buckets) && entries >= gcThresh3)
    }

    /** neigh_alloc: count the entry, run forced GC if the table is over
        gc_thresh3 or over gc_thresh2 with a stale flush, and refuse the
        entry when that reclaimed nothing and the table is over gc_thresh3
        (or the allocator fails, `oom`).  The new entry is fresh and unlinked. */
    method Alloc(now: int, oom: bool) returns (r: Option<Id>)
      requires Valid() && Counted()
      modifies this
      ensures Valid() && Counted() && SameProxyAndParms()
      ensures hashRnd == old(hashRnd) && lastRand == old(lastRand)
      ensures var s := if GcDue(old(entries), now, old(lastFlush), gcThresh2, gcThresh3)
                       then SweepOn(old(slab), ForcedFate, ChainIds(old(buckets))) else old(slab);
        r.None? ==> slab == s
      ensures var s := if GcDue(old(entries), now, old(lastFlush), gcThresh2, gcThresh3)
                       then SweepOn(old(slab), ForcedFate, ChainIds(old(buckets))) else old(slab);
        r.Some? ==> r.value !in old(slab) && slab == s[r.value := Fresh(parmsList[0], now)]
      ensures r.None? <==> old(AllocRefused(now, oom))
      ensures Agrees(slab, old(slab))
      ensures slab.Keys <= old(slab).Keys + (if r.Some? then {r.value} else {})
    {
      ghost var s0 := slab;
      var admitted := Admit(now);
      ghost var s1 := slab;
      r := Take(admitted && !oom, now);
      AgreesFresh(s0, s1, old(nextId), Fresh(parmsList[0], now));
    }

    /** The start of neigh_alloc: count the new entry and, when forced GC is
        due, run it; the entry is admitted unless GC reclaimed nothing and
        the table held gc_thresh3 entries. */
    method Admit(now: int) returns (admitted: bool)
      requires Valid() && Counted()
      modifies this
      ensures Valid() && SameProxyAndParms()
      ensures hashRnd == old(hashRnd) && lastRand == old(lastRand) && nextId == old(nextId)
      ensures entries == |slab| + 1
      ensures slab == if GcDue(old(entries), now, old(lastFlush), gcThresh2, gcThresh3)
                      then SweepOn(old(slab), ForcedFate, ChainIds(old(buckets))) else old(slab)
      ensures Within(slab, old(slab))
      ensures !admitted <==> GcDue(old(entries), now, old(lastFlush), gcThresh2, gcThresh3) &&
                             !Reclaimable(old(slab), old(buckets)) && old(entries) >= gcThresh3
    {
      entries := entries + 1;
      admitted := true;
      if GcDue(entries - 1, now, lastFlush, gcThresh2, gcThresh3) {
        var shrunk := ForcedGc(now);
        admitted := shrunk || entries - 1 < gcThresh3;
      }
    }

    /** neigh_create grows the table when it holds more entries than buckets. */
    method GrowIfFull(rnd: nat, growOom: bool)
      requires Valid()
      modifies this
      ensures Valid() && SameProxyAndParms()
      ensures slab == old(slab) && entries == old(entries) && nextId == old(nextId)
      ensures lastFlush == old(lastFlush) && lastRand == old(lastRand)
      ensures old(entries) > |old(buckets)| && !growOom ==> |buckets| == 2 * |old(buckets)| && hashRnd == rnd
      ensures ChainIds(buckets) == ChainIds(old(buckets))
    {
      if entries > |buckets| {
        assert IsPow2(2 * |buckets|);
        HashGrow(2 * |buckets|, rnd, growOom);
      }
    }

    /** Link an unlinked entry at the head of its bucket, taking the
        table's reference, when no linked entry has its key. */
    method Link(id: Id)
      requires Valid() && id in slab && slab[id].dead
      requires forall x :: x in slab && !slab[x].dead ==> !SameKey(slab[x], slab[id])
      modifies this
      ensures Valid() && SameProxyAndParms() && entries == old(entries) && nextId == old(nextId)
      ensures hashRnd == old(hashRnd) && lastFlush == old(lastFlush) && lastRand == old(lastRand)
      ensures slab == old(slab)[id := Linked(old(slab)[id])]
      ensures var k := Slot(hash, hashRnd, old(slab)[id], |old(buckets)|);
        buckets == old(buckets)[k := [id] + old(buckets)[k]]
    {
      var n := slab[id];
      var k := SlotOf(hash, hashRnd, n.key, n.dev, |buckets|);
      CacheOkLinked(slab, buckets, hash, hashRnd, parms, nextId, id);
      buckets := buckets[k := [id] + buckets[k]];
      slab := slab[id := Linked(n)];
    }

    /** The locked part of neigh_create: grow the table if needed, refuse a
        released parameter block, return the entry already linked for
        (key, dev) with one more reference, or link the new entry with the
        table's reference besides the caller's.  The new entry is released
        when it is not linked. */
    method Insert(id: Id, rnd: nat, growOom: bool) returns (r: Result<Id>)
      requires Valid() && Counted()
      requires id in slab && slab[id].dead && slab[id].refcnt == 1 && slab[id].timer.None?
      modifies this
      ensures Valid() && Counted() && SameProxyAndParms()
      ensures lastFlush == old(lastFlush) && lastRand == old(lastRand) && nextId == old(nextId)
      ensures var n := old(slab)[id];
        parms[n.parms].dead ==> r == Err(-EINVAL) && slab == old(slab) - {id}
      ensures var n := old(slab)[id];
        !parms[n.parms].dead ==> r.Ok?
      ensures var n := old(slab)[id];
        r.Ok? && r.value == id ==>
          && slab == old(slab)[id := Linked(n)]
          && (forall x :: x in old(slab) && !old(slab)[x].dead ==> !SameKey(old(slab)[x], n))
      ensures var n := old(slab)[id];
        r.Ok? && r.value != id ==>
          && r.value in old(slab) && !old(slab)[r.value].dead && SameKey(old(slab)[r.value], n)
          && slab == (old(slab) - {id})[r.value := Held(old(slab)[r.value])]
    {
      var n := slab[id];
      GrowIfFull(rnd, growOom);
      if parms[n.parms].dead {
        var _ := Release(id);
        r := Err(-EINVAL);
      } else {
        var found := FindLinked(n.key, n.dev);
        if found.Some? {
          var f := found.value;
          WriteRemove(slab, f, Held(slab[f]), id);
          Hold(f);
          var _ := Release(id);
          r := Ok(f);
        } else {
          Link(id);
          r := Ok(id);
        }
      }
    }

    /** The walk of the bucket of (key, dev) for its linked entry. */
    method FindLinked(key: Key, dev: Dev) returns (r: Option<Id>)
      requires Valid()
      ensures r.Some? ==> r.value in slab && !slab[r.value].dead && Matches(slab[r.value], key, dev)
      ensures r.None? <==> forall id :: id in slab && !slab[id].dead ==> !Matches(slab[id], key, dev)
    {
      var k := SlotOf(hash, hashRnd, key, dev, |buckets|);
      FindIsTheEntry(slab, buckets, hash, hashRnd, key, dev, 0);
      r := FindInChain(slab, buckets[k], key, dev);
      if r.Some? {
        FindIsTheEntry(slab, buckets, hash, hashRnd, key, dev, r.value);
      } else {
        forall id | id in slab && !slab[id].dead ensures !Matches(slab[id], key, dev) {
          FindIsTheEntry(slab, buckets, hash, hashRnd, key, dev, id);
        }
      }
    }

    /** neigh_create: allocate, name and construct an entry, stamp it
        confirmed two base reachable times ago, and insert it.  `ctor` is
        the protocol constructor; `rnd` is the salt a growth would draw. */
    method Create(key: Key, dev: Dev, ctor: Neigh -> Result<Neigh>, now: int, oom: bool, rnd: nat, growOom: bool)
      returns (r: Result<Id>)
      requires Valid() && Counted()
      requires dev.addrLen <= MAX_ADDR_LEN
      requires forall n: Neigh :: |n.ha| == MAX_ADDR_LEN && ctor(n).Ok? ==> ctor(n).value.parms in parms && |ctor(n).value.ha| == MAX_ADDR_LEN
      modifies this
      ensures Valid() && Counted() && SameProxyAndParms()
      // -ENOBUFS when neigh_alloc refuses, the constructor's error when it fails,
      // -EINVAL when the constructor chose a released parameter block
      ensures old(AllocRefused(now, oom)) ==> r == Err(-ENOBUFS)
      ensures var c := ctor(Named(Fresh(old(parmsList)[0], now), key, dev));
        !old(AllocRefused(now, oom)) && c.Err? ==> r == Err(c.errno)
      ensures var c := ctor(Named(Fresh(old(parmsList)[0], now), key, dev));
        !old(AllocRefused(now, oom)) && c.Ok? ==> (r.Err? <==> parms[c.value.parms].dead) && (r.Err? ==> r.errno == -EINVAL)
      // nothing is left behind: the slab gains at most the returned entry
      ensures slab.Keys <= old(slab).Keys + (if r.Ok? then {r.value} else {})
      ensures r.Ok? ==> r.value in slab && !slab[r.value].dead && Matches(slab[r.value], key, dev)
      ensures r.Ok? && r.value !in old(slab) ==> slab[r.value].refcnt == 2
      ensures r.Ok? && r.value in old(slab) ==> slab[r.value] == Held(old(slab)[r.value])
      ensures r.Ok? ==> CallerHolds(slab[r.value])
    {
      ghost var s0 := slab;
      var a := Alloc(now, oom);
      if a.None? {
        r := Err(-ENOBUFS);
      } else {
        var id := a.value;
        ghost var s1 := slab;
        var c := Construct(id, key, dev, ctor, now);
        if c.Err? {
          r := Err(c.errno);
        } else {
          ghost var s2 := slab;
          AgreesAt(s1, s0, id, s2[id]);
          r := Insert(id, rnd, growOom);
        }
      }
    }

    /** The middle of neigh_create: the new entry takes its key and device,
        the protocol's constructor fills it in, and its confirmation is
        backdated; when the constructor fails the entry is released. */
    method Construct(id: Id, key: Key, dev: Dev, ctor: Neigh -> Result<Neigh>, now: int)
      returns (c: Result<Neigh>)
      requires Valid() && Counted()
      requires id in slab && slab[id].dead && slab[id].refcnt == 1 && slab[id].timer.None?
      requires dev.addrLen <= MAX_ADDR_LEN
      requires forall n: Neigh :: |n.ha| == MAX_ADDR_LEN && ctor(n).Ok? ==> ctor(n).value.parms in parms && |ctor(n).value.ha| == MAX_ADDR_LEN
      modifies this
      ensures Valid() && Counted() && SameProxyAndParms()
      ensures c == ctor(Named(old(slab)[id], key, dev))
      ensures c.Err? ==> slab == old(slab) - {id}
      ensures c.Ok? ==> id in slab && slab == old(slab)[id := slab[id]]
      ensures c.Ok? ==> slab[id].dead && slab[id].refcnt == 1 && slab[id].timer.None? && Matches(slab[id], key, dev)
      ensures c.Ok? ==> slab[id].parms == c.value.parms && slab[id].ha == c.value.ha && slab[id].nudState == c.value.nudState
      ensures c.Ok? ==> slab[id].confirmed == now - parms[c.value.parms].baseReachableTime * 2
    {
      var n := Named(slab[id], key, dev);
      c := ctor(n);
      if c.Err? {
        var _ := Release(id);
      } else {
        n := Constructed(n, c.value);
        n := Backdated(n, parms[n.parms].baseReachableTime, now);
        CacheOkUnlinked(slab, buckets, hash, hashRnd, parms, nextId, id, n);
        slab := slab[id := n];
      }
    }

    /** __neigh_lookup: the entry for (key, dev), created when missing and
        `creat` is set; a creation error reads as no entry. */
    method LookupCreate(key: Key, dev: Dev, creat: bool, ctor: Neigh -> Result<Neigh>, now: int, oom: bool, rnd: nat, growOom: bool)
      returns (r: Option<Id>)
      requires Valid() && Counted()
      requires dev.addrLen <= MAX_ADDR_LEN
      requires forall n: Neigh :: |n.ha| == MAX_ADDR_LEN && ctor(n).Ok? ==> ctor(n).value.parms in parms && |ctor(n).value.ha| == MAX_ADDR_LEN
      modifies this
      ensures Valid() && Counted()
      ensures r.Some? ==> r.value in slab && !slab[r.value].dead && Matches(slab[r.value], key, dev)
      ensures !creat ==> (r.None? <==> forall id :: id in old(slab) && !old(slab)[id].dead ==> !Matches(old(slab)[id], key, dev))
      ensures !creat && r.None? ==> slab == old(slab)
      ensures (exists id :: id in old(slab) && !old(slab)[id].dead && Matches(old(slab)[id], key, dev)) ==>
        r.Some? && r.value in old(slab) && slab == old(slab)[r.value := Held(old(slab)[r.value])]
      ensures SameProxyAndParms()
      // with `creat` and no linked entry, the result is null exactly when
      // neigh_create fails: neigh_alloc refuses, the constructor fails, or
      // it chose a released parameter block
      ensures creat && (forall id :: id in old(slab) && !old(slab)[id].dead ==> !Matches(old(slab)[id], key, dev)) ==>
        var c := ctor(Named(Fresh(old(parmsList)[0], now), key, dev));
        r.None? <==> old(AllocRefused(now, oom)) || c.Err? || parms[c.value.parms].dead
      // nothing is left behind: the slab gains at most the returned entry
      ensures slab.Keys <= old(slab).Keys + (if r.Some? then {r.value} else {})
      ensures r.Some? ==> CallerHolds(slab[r.value])
    {
      r := Lookup(key, dev);
      if r.Some? || !creat {
        return;
      }
      var c := Create(key, dev, ctor, now, oom, rnd, growOom);
      r := if c.Ok? then Some(c.value) else None;
    }

    /** __neigh_lookup_errno: the entry for (key, dev), or exactly what
        neigh_create returns. */
    method LookupErrno(key: Key, dev: Dev, ctor: Neigh -> Result<Neigh>, now: int, oom: bool, rnd: nat, growOom: bool)
      returns (r: Result<Id>)
      requires Valid() && Counted()
      requires dev.addrLen <= MAX_ADDR_LEN
      requires forall n: Neigh :: |n.ha| == MAX_ADDR_LEN && ctor(n).Ok? ==> ctor(n).value.parms in parms && |ctor(n).value.ha| == MAX_ADDR_LEN
      modifies this
      ensures Valid() && Counted() && SameProxyAndParms()
      ensures r.Ok? ==> r.value in slab && !slab[r.value].dead && Matches(slab[r.value], key, dev)
      ensures (exists id :: id in old(slab) && !old(slab)[id].dead && Matches(old(slab)[id], key, dev)) ==>
        r.Ok? && r.value in old(slab) && slab == old(slab)[r.value := Held(old(slab)[r.value])]
      ensures (forall id :: id in old(slab) && !old(slab)[id].dead ==> !Matches(old(slab)[id], key, dev)) ==>
        && (old(AllocRefused(now, oom)) ==> r == Err(-ENOBUFS))
        && (var c := ctor(Named(Fresh(old(parmsList)[0], now), key, dev));
            && (!old(AllocRefused(now, oom)) && c.Err? ==> r == Err(c.errno))
            && (!old(AllocRefused(now, oom)) && c.Ok? ==> (r.Err? <==> parms[c.value.parms].dead) && (r.Err? ==> r.errno == -EINVAL)))
      ensures slab.Keys <= old(slab).Keys + (if r.Ok? then {r.value} else {})
      ensures r.Ok? ==> CallerHolds(slab[r.value])
    {
      var l := Lookup(key, dev);
      if l.Some? {
        return Ok(l.value);
      }
      r := Create(key, dev, ctor, now, oom, rnd, growOom);
    }

    // -------------------------------------------------------------------
    // The per-entry transitions, applied in the table
    // -------------------------------------------------------------------

    /** neigh_event_send: stamp the entry used; a connected, DELAY or PROBE
        entry sends at once, any other goes through __neigh_event_send. */
    method EventSend(id: Id, skb: Option<Packet>, now: int) returns (rc: int, dropped: seq<Packet>)
      requires Valid() && id in slab
      modifies this
      ensures Valid() && SameChains() && SameProxyAndParms() && entries == old(entries)
      ensures var n := Used(old(slab)[id], now);
        var r := EventSendStep(n, parms[n.parms], skb, now);
        slab == old(slab)[id := r.n] && rc == r.rc && dropped == r.dropped
      ensures var s := old(slab)[id].nudState;
        IsConnected(s) || s == DELAY || s == PROBE ==>
        rc == 0 && dropped == [] && slab == old(slab)[id := Used(old(slab)[id], now)]
    {
      var n := Used(slab[id], now);
      var r;
      if IsConnected(n.nudState) || n.nudState == DELAY || n.nudState == PROBE {
        r := SendResult(n, 0, []);
      } else {
        r := EventSendSlow(n, parms[n.parms], skb, now);
      }
      EventSendStates(n, parms[n.parms], skb, now);
      CacheOkSend(slab, buckets, hash, hashRnd, parms, nextId, id, skb, now);
      slab := slab[id := r.n];
      rc, dropped := r.rc, r.dropped;
    }

    /** The entry's timer expires: neigh_timer_handler runs with the
        reference the timer held, and drops it at the end. */
    method TimerFire(id: Id, now: int) returns (r: TimerResult, purged: seq<Packet>)
      requires Valid() && id in slab && slab[id].timer.Some? && now >= slab[id].timer.value
      modifies this
      ensures Valid() && SameChains() && SameProxyAndParms()
      ensures entries - |slab| == old(entries - |slab|)
      ensures var n := old(slab)[id];
        r == TimerStep(Fired(n), parms[n.parms], now)
      ensures r.n.refcnt == 1 ==> slab == old(slab) - {id} && purged == r.n.arpQueue
      ensures r.n.refcnt > 1 ==> slab == old(slab)[id := Dropped(r.n)] && purged == []
    {
      var n := Fired(slab[id]);
      r := TimerHandler(n, parms[n.parms], now);
      CacheOkTimer(slab, buckets, hash, hashRnd, parms, nextId, id, now);
      Rewrite(slab, id, r.n, Dropped(r.n));
      slab := slab[id := r.n];
      purged := Release(id);
    }

    /** neigh_update on a held entry. */
    method UpdateEntry(id: Id, lladdr: Option<seq<byte>>, ns: State, flags: UpdateFlags, now: int)
      returns (r: UpdateResult)
      requires Valid() && id in slab && CallerHolds(slab[id])
      requires lladdr.Some? ==> |lladdr.value| >= slab[id].dev.addrLen
      modifies this
      ensures Valid() && SameChains() && SameProxyAndParms() && entries == old(entries)
      ensures var n := old(slab)[id];
        r == UpdateStep(n, parms[n.parms], lladdr, ns, flags, now) && slab == old(slab)[id := r.n]
      ensures CallerHolds(slab[id])
    {
      var n := slab[id];
      r := Update(n, parms[n.parms], lladdr, ns, flags, now);
      CacheOkUpdate(slab, buckets, hash, hashRnd, parms, nextId, id, lladdr, ns, flags, now);
      slab := slab[id := r.n];
    }

    // -------------------------------------------------------------------
    // The parameter list
    // -------------------------------------------------------------------

    /** neigh_parms_clone: one more reference on a parameter block. */
    method ParmsClone(pid: ParmsId) returns (r: ParmsId)
      requires Valid() && pid in parms
      modifies this
      ensures Valid() && SameChains() && slab == old(slab) && entries == old(entries)
      ensures r == pid && parmsList == old(parmsList)
      ensures parms == old(parms)[pid := ParmsHeld(old(parms)[pid])]
      ensures phash == old(phash) && proxyQueue == old(proxyQueue) && proxyTimer == old(proxyTimer)
    {
      var ps := parms[pid := ParmsHeld(parms[pid])];
      CacheOkParms(slab, buckets, hash, hashRnd, parms, ps, nextId);
      parms := ps;
      r := pid;
    }

    /** __neigh_parms_put: drop a reference on a parameter block. */
    method ParmsPut(pid: ParmsId)
      requires Valid() && pid in parms
      modifies this
      ensures Valid() && SameChains() && slab == old(slab) && entries == old(entries)
      ensures parmsList == old(parmsList)
      ensures parms == old(parms)[pid := ParmsDropped(old(parms)[pid])]
      ensures phash == old(phash) && proxyQueue == old(proxyQueue) && proxyTimer == old(proxyTimer)
    {
      var ps := parms[pid := ParmsDropped(parms[pid])];
      CacheOkParms(slab, buckets, hash, hashRnd, parms, ps, nextId);
      parms := ps;
    }

    /** lookup_neigh_parms: walk the list for the block of a device index. */
    method LookupParms(ifindex: nat) returns (r: Option<ParmsId>)
      requires Valid()
      ensures r == ParmsFor(parms, parmsList, ifindex)
    {
      var i := 0;
      while i < |parmsList|
        invariant 0 <= i <= |parmsList|
        invariant ParmsFor(parms, parmsList, ifindex) == ParmsFor(parms, parmsList[i..], ifindex)
      {
        var p := parms[parmsList[i]];
        if (p.ifindex.Some? && p.ifindex.value == ifindex) || (p.ifindex.None? && ifindex == 0) {
          return Some(parmsList[i]);
        }
        assert parmsList[i..][1..] == parmsList[i + 1..];
        i := i + 1;
      }
      return None;
    }

    /** neigh_parms_release: unlink a device's parameter block from the
        list, mark it dead and drop the list's reference.  The table's own
        block and a null block are ignored, and so is a block not on the list. */
    method ParmsRelease(pid: Option<ParmsId>)
      requires Valid()
      modifies this
      ensures Valid() && SameChains() && slab == old(slab) && entries == old(entries)
      ensures phash == old(phash) && proxyQueue == old(proxyQueue) && proxyTimer == old(proxyTimer)
      ensures pid.None? || pid.value == old(parmsList)[0] || pid.value !in old(parmsList) ==>
        parms == old(parms) && parmsList == old(parmsList)
      ensures pid.Some? && pid.value != old(parmsList)[0] && pid.value in old(parmsList) ==>
        && pid.value !in parmsList && parmsList[0] == old(parmsList)[0]
        && (forall q :: q in parmsList <==> q in old(parmsList) && q != pid.value)
        && (exists i :: 0 < i < |old(parmsList)| && old(parmsList)[i] == pid.value
                        && parmsList == old(parmsList)[..i] + old(parmsList)[i + 1..])
        && parms == old(parms)[pid.value := ParmsReleased(old(parms)[pid.value])]
    {
      if pid.None? || pid.value == parmsList[0] {
        return;
      }
      var i := 1;
      while i < |parmsList|
        invariant 1 <= i <= |parmsList|
        invariant forall j :: 1 <= j < i ==> parmsList[j] != pid.value
      {
        if parmsList[i] == pid.value {
          var list := parmsList[..i] + parmsList[i + 1..];
          var ps := parms[pid.value := ParmsReleased(parms[pid.value])];
          CacheOkParms(slab, buckets, hash, hashRnd, parms, ps, nextId);
          ParmsOkRemove(parms, parmsList, i, ps);
          parmsList := list;
          parms := ps;
          return;
        }
        i := i + 1;
      }
    }

    // -------------------------------------------------------------------
    // The proxy table and the delay queue
    // -------------------------------------------------------------------

    /** pneigh_lookup: the proxy entry answering for (key, dev); when there
        is none and `creat` is set, a new entry for exactly (key, dev) is
        linked at the head of its bucket, unless allocation (`oom`) or the
        protocol's pconstructor (`refused`) fails. */
    method PneighLookup(key: Key, dev: Option<Dev>, creat: bool, oom: bool, refused: bool) returns (r: Option<PEntry>)
      requires Valid() && |key| >= 4
      modifies this
      ensures Valid() && SameChains() && slab == old(slab) && entries == old(entries)
      ensures parms == old(parms) && parmsList == old(parmsList) && proxyQueue == old(proxyQueue) && proxyTimer == old(proxyTimer)
      ensures PFind(old(phash)[PneighHash(key)], key, dev).Some? ==>
        r == PFind(old(phash)[PneighHash(key)], key, dev) && phash == old(phash)
      ensures PFind(old(phash)[PneighHash(key)], key, dev).None? ==>
        if creat && !oom && !refused then
          r == Some(PEntry(key, dev)) &&
          phash == old(phash)[PneighHash(key) := [PEntry(key, dev)] + old(phash)[PneighHash(key)]]
        else r.None? && phash == old(phash)
    {
      var h := PneighHash(key);
      r := Lookup1(phash[h], key, dev);
      if r.Some? || !creat {
        return;
      }
      if oom || refused {
        return None;
      }
      var e := PEntry(key, dev);
      ProxyOkLink(phash, e);
      phash := phash[h := [e] + phash[h]];
      r := Some(e);
    }

    /** pneigh_delete: unlink the proxy entry for exactly (key, dev). */
    method PneighDelete(key: Key, dev: Option<Dev>) returns (err: int)
      requires Valid() && |key| >= 4
      modifies this
      ensures Valid() && SameChains() && slab == old(slab) && entries == old(entries)
      ensures parms == old(parms) && parmsList == old(parmsList) && proxyQueue == old(proxyQueue) && proxyTimer == old(proxyTimer)
      ensures err == 0 <==> PEntry(key, dev) in old(phash)[PneighHash(key)]
      ensures err != 0 ==> err == -ENOENT && phash == old(phash)
      ensures |phash| == |old(phash)| && forall i :: 0 <= i < |phash| && i != PneighHash(key) ==> phash[i] == old(phash)[i]
      ensures err == 0 ==> PEntry(key, dev) !in phash[PneighHash(key)]
      ensures err == 0 ==>
        var c := old(phash)[PneighHash(key)];
        var j := PIndex(c, key, dev).value;
        phash == old(phash)[PneighHash(key) := c[..j] + c[j + 1..]]
    {
      var h := PneighHash(key);
      var rest;
      rest, err := DeleteFrom(phash[h], key, dev);
      if err == 0 {
        ProxyOkDelete(phash, h, key, dev);
      }
      phash := phash[h := rest];
    }

    /** pneigh_ifdown: drop the proxy entries of the device (all of them
        when none is given) from every bucket; it always reports -ENOENT. */
    method PneighIfdown(dev: Option<Dev>) returns (err: int)
      requires Valid()
      modifies this
      ensures Valid() && SameChains() && slab == old(slab) && entries == old(entries)
      ensures parms == old(parms) && parmsList == old(parmsList) && proxyQueue == old(proxyQueue) && proxyTimer == old(proxyTimer)
      ensures |phash| == |old(phash)| && forall i :: 0 <= i < |phash| ==> phash[i] == Survivors(old(phash)[i], dev)
      ensures err == -ENOENT
    {
      var ph := IfdownAll(phash, dev);
      SurvivorsOk(phash, ph, dev);
      phash := ph;
      err := -ENOENT;
    }

    /** pneigh_enqueue, statement by statement. */
    method PneighEnqueue(p: Parms, pkt: Packet, dev: Dev, now: int, rand: nat) returns (dropped: bool)
      requires Valid() && p.proxyDelay > 0
      modifies this
      ensures Valid() && SameChains() && slab == old(slab) && entries == old(entries)
      ensures parms == old(parms) && parmsList == old(parmsList) && phash == old(phash)
      ensures EnqueueResult(proxyQueue, proxyTimer, dropped) ==
        ProxyEnqueue(old(proxyQueue), old(proxyTimer), p, pkt, dev, now, rand)
    {
      ghost var r := ProxyEnqueue(proxyQueue, proxyTimer, p, pkt, dev, now, rand);
      var due := now + rand % p.proxyDelay;
      if |proxyQueue| > p.proxyQlen {
        return true;
      }
      var next := due;
      if proxyTimer.Some? && proxyTimer.value < next {
        next := proxyTimer.value;
      }
      proxyQueue := proxyQueue + [Delayed(pkt, dev, due)];
      proxyTimer := Some(next);
      dropped := false;
    }

    /** neigh_proxy_process, run when the proxy timer expires. */
    method ProxyRun(now: int, redo: bool, running: Dev -> bool) returns (redone: seq<Packet>, freed: seq<Packet>)
      requires Valid()
      modifies this
      ensures Valid() && SameChains() && slab == old(slab) && entries == old(entries)
      ensures parms == old(parms) && parmsList == old(parmsList) && phash == old(phash)
      ensures proxyQueue == Waiting(old(proxyQueue), now)
      ensures redone == Redone(old(proxyQueue), now, redo, running)
      ensures freed == Discarded(old(proxyQueue), now, redo, running)
      ensures proxyTimer.Some? <==> proxyQueue != []
      ensures forall j :: 0 <= j < |proxyQueue| ==> now < proxyQueue[j].due
    {
      var r := ProxyProcess(proxyQueue, now, redo, running);
      proxyQueue, proxyTimer := r.q, r.timer;
      redone, freed := r.redone, r.freed;
    }
  }

  // ---------------------------------------------------------------------
  // Lemmas behind the table's methods
  // ---------------------------------------------------------------------

  lemma ForcedFateOk()
    ensures FateOk(ForcedFate)
  {
  }

  lemma PeriodicFateOk(ps: map<ParmsId, Parms>, now: int)
    ensures FateOk(PeriodicFateIn(ps, now))
  {
  }

  lemma FlushFateOk(dev: Option<Dev>)
    ensures FateOk(FlushFateOf(dev))
  {
  }

  /** A sweep keeps the cache well formed. */
  lemma SweepCacheOk(s0: Slab, b: seq<seq<Id>>, h: HashFn, rnd: nat, f: Neigh -> Fate, ps: map<ParmsId, Parms>, next: Id,
                     s: Slab, nb: seq<seq<Id>>)
    requires CacheOk(s0, b, h, rnd, ps, next) && FateOk(f)
    requires s == SweepOn(s0, f, ChainIds(b))
    requires |nb| == |b| && forall i :: 0 <= i < |b| ==> nb[i] == Kept(s0, b[i], f)
    ensures CacheOk(s, nb, h, rnd, ps, next)
  {
    SweepOk(s0, b, h, rnd, f);
    assert nb == seq(|b|, i requires 0 <= i < |b| => Kept(s0, b[i], f));
    SweepKeepsIds(s0, b, h, rnd, f, ps, next);
  }

  /** The sweep's slab keeps the identities below `next` and the parameter blocks. */
  lemma SweepKeepsIds(s0: Slab, b: seq<seq<Id>>, h: HashFn, rnd: nat, f: Neigh -> Fate, ps: map<ParmsId, Parms>, next: Id)
    requires ChainsOk(s0, b, h, rnd) && FateOk(f)
    requires forall id :: id in s0 ==> EntryOk(s0[id]) && s0[id].parms in ps && id < next
    ensures var s := SweepOn(s0, f, ChainIds(b));
      forall id :: id in s ==> s[id].parms in ps && id < next
  {
    var s := SweepOn(s0, f, ChainIds(b));
    forall id | id in s ensures s[id].parms in ps && id < next {
      if id in ChainIds(b) {
        var i, j :| 0 <= i < |b| && 0 <= j < |b[i]| && b[i][j] == id;
        assert FateKeeps(s0[id], f(s0[id]));
      }
    }
  }

  /** What forced GC leaves: reclaimed entries are gone, the others untouched. */
  lemma ForcedSweepKeeps(s0: Slab, b0: seq<seq<Id>>, h: HashFn, rnd: nat, shrunk: bool, b: seq<seq<Id>>)
    requires ChainsOk(s0, b0, h, rnd)
    requires shrunk <==> exists i :: 0 <= i < |b0| && !AllStay(s0, b0[i], ForcedFate)
    requires |b| == |b0| && forall i :: 0 <= i < |b| ==> b[i] == Kept(s0, b0[i], ForcedFate)
    ensures Within(SweepOn(s0, ForcedFate, ChainIds(b0)), s0)
    ensures !shrunk ==> SweepOn(s0, ForcedFate, ChainIds(b0)) == s0 && b == b0
  {
    if !shrunk {
      forall i | 0 <= i < |b0| ensures Kept(s0, b0[i], ForcedFate) == b0[i] {
        forall x | x in b0[i] ensures x in s0 {
          var j :| 0 <= j < |b0[i]| && b0[i][j] == x;
        }
        KeptAll(s0, b0[i], ForcedFate);
      }
      var s := SweepOn(s0, ForcedFate, ChainIds(b0));
      forall id | id in ChainIds(b0) ensures ForcedFate(s0[id]).Stay? {
        var i, j :| 0 <= i < |b0| && 0 <= j < |b0[i]| && b0[i][j] == id;
      }
      assert s.Keys == s0.Keys;
      assert b == b0;
    }
  }

  /** A chain whose entries all stay is kept whole. */
  lemma {:induction false} KeptAll(s: Slab, chain: seq<Id>, f: Neigh -> Fate)
    requires forall x :: x in chain ==> x in s
    requires AllStay(s, chain, f)
    ensures Kept(s, chain, f) == chain
  {
    if |chain| > 0 {
      var u := chain[..|chain| - 1];
      assert forall x :: x in u ==> x in chain;
      assert forall j :: 0 <= j < |u| ==> u[j] == chain[j];
      KeptAll(s, u, f);
      assert chain == u + [chain[|chain| - 1]];
    }
  }

  /** After a flush, no linked entry of the device remains. */
  lemma FlushLeavesNone(s0: Slab, b0: seq<seq<Id>>, h: HashFn, rnd: nat, dev: Option<Dev>)
    requires ChainsOk(s0, b0, h, rnd)
    ensures var s := SweepOn(s0, FlushFateOf(dev), ChainIds(b0));
      forall id :: id in s && !s[id].dead ==> dev.Some? && s[id].dev != dev.value
  {
    var f := FlushFateOf(dev);
    var s := SweepOn(s0, f, ChainIds(b0));
    forall id | id in s && !s[id].dead ensures dev.Some? && s[id].dev != dev.value {
    }
  }

  /** neigh_event_send keeps the cache well formed. */
  lemma CacheOkSend(s: Slab, b: seq<seq<Id>>, h: HashFn, rnd: nat, ps: map<ParmsId, Parms>, next: Id,
                    id: Id, skb: Option<Packet>, now: int)
    requires CacheOk(s, b, h, rnd, ps, next) && id in s
    ensures var n := Used(s[id], now);
      CacheOk(s[id := EventSendStep(n, ps[n.parms], skb, now).n], b, h, rnd, ps, next)
  {
    var n := Used(s[id], now);
    EventSendOk(n, ps[n.parms], skb, now);
    CacheOkReplace(s, b, h, rnd, ps, next, id, EventSendStep(n, ps[n.parms], skb, now).n);
  }

  /** The timer handler keeps the cache well formed, and the reference the
      fired timer held passes to the handler. */
  lemma CacheOkTimer(s: Slab, b: seq<seq<Id>>, h: HashFn, rnd: nat, ps: map<ParmsId, Parms>, next: Id, id: Id, now: int)
    requires CacheOk(s, b, h, rnd, ps, next) && id in s && s[id].timer.Some?
    ensures var n := Fired(s[id]);
      var m := TimerStep(n, ps[n.parms], now).n;
      CacheOk(s[id := m], b, h, rnd, ps, next) && CallerHolds(m)
  {
    var n := Fired(s[id]);
    CacheOkReplace(s, b, h, rnd, ps, next, id, TimerStep(n, ps[n.parms], now).n);
  }

  /** neigh_update keeps the cache well formed and the caller's reference. */
  lemma CacheOkUpdate(s: Slab, b: seq<seq<Id>>, h: HashFn, rnd: nat, ps: map<ParmsId, Parms>, next: Id,
                      id: Id, lladdr: Option<seq<byte>>, ns: State, flags: UpdateFlags, now: int)
    requires CacheOk(s, b, h, rnd, ps, next) && id in s && CallerHolds(s[id])
    requires lladdr.Some? ==> |lladdr.value| >= s[id].dev.addrLen
    ensures var m := UpdateStep(s[id], ps[s[id].parms], lladdr, ns, flags, now).n;
      CacheOk(s[id := m], b, h, rnd, ps, next) && CallerHolds(m)
  {
    var n := s[id];
    UpdateKeepsRefs(n, ps[n.parms], lladdr, ns, flags, now);
    CacheOkReplace(s, b, h, rnd, ps, next, id, UpdateStep(n, ps[n.parms], lladdr, ns, flags, now).n);
  }

  lemma CacheOkLinked(s: Slab, b: seq<seq<Id>>, h: HashFn, rnd: nat, ps: map<ParmsId, Parms>, next: Id, id: Id)
    requires CacheOk(s, b, h, rnd, ps, next) && id in s && s[id].dead
    requires forall x :: x in s && !s[x].dead ==> !SameKey(s[x], s[id])
    ensures var k := Slot(h, rnd, s[id], |b|);
      CacheOk(s[id := Linked(s[id])], b[k := [id] + b[k]], h, rnd, ps, next)
  {
    ChainsOkLink(s, b, h, rnd, id, Linked(s[id]));
  }

  lemma CacheOkFresh(s: Slab, b: seq<seq<Id>>, h: HashFn, rnd: nat, ps: map<ParmsId, Parms>, id: Id, n: Neigh)
    requires CacheOk(s, b, h, rnd, ps, id)
    requires EntryOk(n) && n.dead && n.parms in ps
    ensures CacheOk(s[id := n], b, h, rnd, ps, id + 1)
  {
    ChainsOkUnlinked(s, b, h, rnd, id, n);
  }

  lemma RerandomizeKeepsList(ps: map<ParmsId, Parms>, ps2: map<ParmsId, Parms>, list: seq<ParmsId>, rand: ParmsId -> nat)
    requires ParmsOk(ps, list) && ps2.Keys == ps.Keys
    requires forall pid :: pid in ps ==> ps2[pid].dead == ps[pid].dead
    ensures ParmsOk(ps2, list)
  {
  }

  lemma ParmsOkRemove(ps: map<ParmsId, Parms>, list: seq<ParmsId>, i: nat, ps2: map<ParmsId, Parms>)
    requires ParmsOk(ps, list) && 1 <= i < |list|
    requires ps2 == ps[list[i] := ParmsReleased(ps[list[i]])]
    ensures ParmsOk(ps2, list[..i] + list[i + 1..])
    ensures (list[..i] + list[i + 1..])[0] == list[0]
    ensures list[i] !in list[..i] + list[i + 1..]
    ensures forall q :: q in list[..i] + list[i + 1..] <==> q in list && q != list[i]
  {
    var l := list[..i] + list[i + 1..];
    forall p, q | 0 <= p < q < |l| ensures l[p] != l[q] {
      var p0 := if p < i then p else p + 1;
      var q0 := if q < i then q else q + 1;
      assert l[p] == list[p0] && l[q] == list[q0];
    }
    forall j | 0 <= j < |l| ensures l[j] != list[i] {
      var j0 := if j < i then j else j + 1;
      assert l[j] == list[j0];
    }
    forall q | q in list && q != list[i] ensures q in l {
      var j :| 0 <= j < |list| && list[j] == q;
      if j < i {
        assert l[j] == q;
      } else {
        assert l[j - 1] == q;
      }
    }
  }

  /** Linking a proxy entry nobody answers for keeps the proxy table well formed. */
  lemma ProxyOkLink(ph: seq<seq<PEntry>>, e: PEntry)
    requires ProxyOk(ph) && |e.key| >= 4
    requires PFind(ph[PneighHash(e.key)], e.key, e.dev).None?
    ensures ProxyOk(ph[PneighHash(e.key) := [e] + ph[PneighHash(e.key)]])
  {
    var h := PneighHash(e.key);
    var c := ph[h];
    var c2 := [e] + c;
    assert e !in c;
    assert Hashed(c2, h);
    forall p, q | 0 <= p < q < |c2| ensures c2[p] != c2[q] {
      assert c2[q] == c[q - 1];
      if p > 0 {
        assert c2[p] == c[p - 1];
      }
    }
  }

  /** Unlinking a proxy entry keeps the proxy table well formed, and the
      entry is gone because no pair is linked twice. */
  lemma ProxyOkDelete(ph: seq<seq<PEntry>>, h: nat, key: Key, dev: Option<Dev>)
    requires ProxyOk(ph) && h < |ph| && PIndex(ph[h], key, dev).Some?
    ensures var j := PIndex(ph[h], key, dev).value;
      ProxyOk(ph[h := ph[h][..j] + ph[h][j + 1..]]) && PEntry(key, dev) !in ph[h][..j] + ph[h][j + 1..]
  {
    var j := PIndex(ph[h], key, dev).value;
    ChainWithout(ph[h], h, j);
  }

  lemma ChainWithout(c: seq<PEntry>, h: nat, j: nat)
    requires Hashed(c, h) && Unique(c) && j < |c|
    ensures var c2 := c[..j] + c[j + 1..];
      Hashed(c2, h) && Unique(c2) && c[j] !in c2
  {
    var c2 := c[..j] + c[j + 1..];
    forall k | 0 <= k < |c2| ensures c2[k] == c[if k < j then k else k + 1] {
    }
    forall x | x in c2 ensures x in c && x != c[j] {
      var k :| 0 <= k < |c2| && c2[k] == x;
    }
    forall p, q | 0 <= p < q < |c2| ensures c2[p] != c2[q] {
      var p0 := if p < j then p else p + 1;
      var q0 := if q < j then q else q + 1;
      assert c2[p] == c[p0] && c2[q] == c[q0];
    }
  }

  /** pneigh_ifdown keeps the proxy table well formed. */
  lemma SurvivorsOk(ph: seq<seq<PEntry>>, ph2: seq<seq<PEntry>>, dev: Option<Dev>)
    requires ProxyOk(ph)
    requires |ph2| == |ph| && forall i :: 0 <= i < |ph| ==> ph2[i] == Survivors(ph[i], dev)
    ensures ProxyOk(ph2)
  {
    forall i | 0 <= i < |ph| ensures Hashed(ph2[i], i) && Unique(ph2[i]) {
      SurvivorsDistinct(ph[i], dev);
    }
  }

  lemma {:induction false} SurvivorsDistinct(c: seq<PEntry>, dev: Option<Dev>)
    requires Unique(c)
    ensures Unique(Survivors(c, dev))
  {
    if |c| > 0 {
      var u := c[..|c| - 1];
      var e := c[|c| - 1];
      assert Unique(u) by {
        forall p, q | 0 <= p < q < |u| ensures u[p] != u[q] {
          assert u[p] == c[p] && u[q] == c[q];
        }
      }
      SurvivorsDistinct(u, dev);
      var t := Survivors(u, dev);
      assert Survivors(c, dev) == if GoesDown(e, dev) then t else t + [e];
      if !GoesDown(e, dev) {
        assert e !in u by {
          forall k | 0 <= k < |u| ensures u[k] != e {
            assert u[k] == c[k];
          }
        }
        var r := t + [e];
        forall p, q | 0 <= p < q < |r| ensures r[p] != r[q] {
          if q == |t| {
            assert r[p] == t[p] && r[q] == e;
            assert e !in t;
          } else {
            assert r[p] == t[p] && r[q] == t[q];
          }
        }
      }
    }
  }
}
