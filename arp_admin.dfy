/**
 * The ARP ioctl interface (net/ipv4/arp.c, SIOCSARP / SIOCDARP / SIOCGARP):
 * setting, deleting and reading entries of the ARP table, and the proxy ARP
 * entries and switches behind ATF_PUBL.
 *
 * These routines act on the neighbour table through its own operations
 * (lookup, creation, neigh_update and release), so they are methods on a
 * `NeighTable.Table`.  The device named in the request, the route that
 * finds a device when none is named, and the device's IPv4 configuration
 * are parameters.
 */
module ArpAdmin {
  import opened Wrappers
  import opened Nud
  import opened NeighEntry
  import opened Chains
  import opened Proxy
  import opened NeighTable
  import opened ArpWire
  import opened ArpNeigh
  import opened Seqs

  const ENODEV: int := 19

  /** The netmask of a single host. */
  const ALL_ONES: Ip := [255, 255, 255, 255]

  /** struct arpreq: the protocol address, the netmask of a proxy entry, the
      hardware address with its family, and the ATF_* flags. */
  datatype ArpReq = ArpReq(pa: Ip, netmask: Ip, haFamily: nat, ha: seq<byte>, flags: bv32)

  /** neigh_update's flags for an administrative change. */
  const ADMIN_OVERRIDE: UpdateFlags := UpdateFlags(true, false, false, false, true)

  /** The device a request applies to: the one named, or else the one the
      route to the address leaves through.  `routed` stands for
      ip_route_output_key: an error, or a route that may lack a device, which
      is -EINVAL. */
  function RouteDev(dev: Option<NetDev>, routed: Result<Option<NetDev>>): Result<NetDev> {
    if dev.Some? then Ok(dev.value)
    else if routed.Err? then Err(routed.errno)
    else if routed.value.None? then Err(-EINVAL)
    else Ok(routed.value.value)
  }

  /** The devices a request may reach are well formed, and the request's
      hardware address holds at least the reached device's address length. */
  predicate ReqDevOk(r: ArpReq, dev: Option<NetDev>, routed: Result<Option<NetDev>>) {
    && (dev.Some? ==> DevOk(dev.value))
    && (routed.Ok? && routed.value.Some? ==> DevOk(routed.value.value))
    && (RouteDev(dev, routed).Ok? ==> |r.ha| >= RouteDev(dev, routed).value.dev.addrLen)
  }

  /** The hardware address family a device accepts: FDDI devices take
      FDDI, Ethernet or IEEE 802 addresses, every other device its own type. */
  predicate FamilyFits(family: nat, devType: u16) {
    if devType == ARPHRD_FDDI then family == ARPHRD_FDDI as nat || family == ARPHRD_ETHER as nat || family == ARPHRD_IEEE802 as nat
    else family == devType as nat
  }

  /** What arp_req_set asks of neigh_update: a complete or permanent entry
      (ATF_PERM implies ATF_COM) brings its address, a permanent one the
      PERMANENT state, any other STALE. */
  function SetLladdr(r: ArpReq): Option<seq<byte>> {
    if r.flags & (ATF_COM | ATF_PERM) != 0 then Some(r.ha) else None
  }

  /** arp_req_set first makes a permanent entry a complete one. */
  function Promoted(r: ArpReq): ArpReq {
    if r.flags & ATF_PERM != 0 then r.(flags := r.flags | ATF_COM) else r
  }

  function SetState(r: ArpReq): State {
    if r.flags & ATF_PERM != 0 then PERMANENT else STALE
  }

  /** The entry of (key, dev) linked in the table, if any. */
  ghost predicate Listed(s: Slab, id: Id, key: Key, dev: Dev) {
    id in s && !s[id].dead && Matches(s[id], key, dev)
  }

  /** An administrative set with an address always succeeds and installs the
      address; the entry then reads back as permanent for ATF_PERM and as
      complete otherwise, except that a permanent entry that already held
      this address stays permanent (a STALE request never demotes a
      connected entry whose address does not change). */
  lemma SetOutcome(n: Neigh, p: Parms, r: ArpReq, now: int)
    requires n.dev.addrLen <= |n.ha| && |r.ha| >= n.dev.addrLen
    requires r.flags & (ATF_COM | ATF_PERM) != 0
    ensures var u := UpdateStep(n, p, SetLladdr(r), SetState(r), ADMIN_OVERRIDE, now);
      && u.err == 0
      && u.n.ha[..n.dev.addrLen] == r.ha[..n.dev.addrLen]
      && StateToFlags(u.n.nudState) ==
           if r.flags & ATF_PERM != 0
              || (n.nudState == PERMANENT && (n.dev.addrLen == 0 || SameAddress(n, r.ha)))
           then ATF_PERM | ATF_COM else ATF_COM
  {
    var s := SetState(r);
    UpdateAddress(n, p, SetLladdr(r), s, ADMIN_OVERRIDE, now);
    var keep := n.dev.addrLen == 0 || SameAddress(n, r.ha);
    assert UpdateGate(n, SetLladdr(r), s, ADMIN_OVERRIDE) == Proceed(keep);
    var d := Decide(n.nudState, keep, s, ADMIN_OVERRIDE);
    assert d.Apply?;
  }

  /** An administrative set without an address (neither ATF_COM nor
      ATF_PERM) asks for STALE: it is refused with -EINVAL exactly when the
      device has addresses and the entry holds no valid one, and a refused
      update leaves the entry as it was. */
  lemma NoAddressOutcome(n: Neigh, p: Parms, r: ArpReq, now: int)
    requires n.dev.addrLen <= |n.ha|
    requires r.flags & (ATF_COM | ATF_PERM) == 0
    ensures var u := UpdateStep(n, p, SetLladdr(r), SetState(r), ADMIN_OVERRIDE, now);
      && (u.err == -EINVAL <==> n.dev.addrLen != 0 && !IsValid(n.nudState))
      && (u.err != 0 ==> u.n == n)
  {
  }

  /** An administrative delete of a resolving or resolved entry always
      succeeds: the entry fails, its timer stops and its address stays. */
  lemma DeleteOutcome(n: Neigh, p: Parms, now: int)
    requires n.dev.addrLen <= |n.ha| && CallerHolds(n)
    ensures var u := UpdateStep(n, p, None, FAILED, ADMIN_OVERRIDE, now);
      && u.err == 0 && u.n.nudState == FAILED && u.n.timer.None? && u.n.ha == n.ha
      && CallerHolds(u.n)
  {
    assert UpdateGate(n, None, FAILED, ADMIN_OVERRIDE) == Invalidating;
  }

  /** arp_req_get: the address and flags of the linked entry of (pa, dev),
      or -ENXIO; the table is left as it was. */
  method ReqGet(t: Table, pa: Ip, d: NetDev) returns (err: int, ha: seq<byte>, flags: bv32, family: u16, ghost found: Option<Id>)
    requires t.Valid() && DevOk(d)
    modifies t
    ensures t.Valid() && t.slab == old(t.slab) && t.entries == old(t.entries)
    ensures found.None? <==> forall id :: id in t.slab && !t.slab[id].dead ==> !Matches(t.slab[id], pa, d.dev)
    ensures found.None? ==> err == -ENXIO
    ensures found.Some? ==>
      && Listed(t.slab, found.value, pa, d.dev) && err == 0 && family == d.devType
      && ha == t.slab[found.value].ha[..d.dev.addrLen] && flags == StateToFlags(t.slab[found.value].nudState)
  {
    err, ha, flags, family := -ENXIO, [], 0, 0;
    var l := t.Lookup(pa, d.dev);
    found := l;
    if l.Some? {
      var id := l.value;
      ghost var s0 := old(t.slab);
      assert EntryOk(s0[id]) by {
        assert CacheOk(s0, old(t.buckets), t.hash, old(t.hashRnd), old(t.parms), old(t.nextId));
      }
      var n := t.slab[id];
      ha := n.ha[..d.dev.addrLen];
      flags := StateToFlags(n.nudState);
      family := d.devType;
      var _ := t.Release(id);
      Rewrite(s0, id, Held(s0[id]), s0[id]);
      WriteSame(s0, id);
      err := 0;
    }
  }

  /** The delete step on an entry the caller holds: an administrative
      neigh_update to FAILED, which cannot be refused, then the release of
      the caller's reference. */
  method FailHeld(t: Table, id: Id, now: int) returns (err: int)
    requires t.Valid() && id in t.slab && CallerHolds(t.slab[id]) && !t.slab[id].dead
    requires t.slab[id].nudState != NONE && t.slab[id].nudState != NOARP
    modifies t
    ensures t.Valid() && t.entries == old(t.entries) && t.parms == old(t.parms) && t.phash == old(t.phash)
    ensures var e := old(t.slab)[id];
      var u := UpdateStep(e, old(t.parms)[e.parms], None, FAILED, ADMIN_OVERRIDE, now);
      && err == 0 && t.slab == old(t.slab)[id := Dropped(u.n)]
      && t.slab[id].nudState == FAILED && t.slab[id].timer.None?
  {
    var n := t.slab[id];
    DeleteOutcome(n, t.parms[n.parms], now);
    var u := t.UpdateEntry(id, None, FAILED, ADMIN_OVERRIDE, now);
    err := u.err;
    var _ := t.Release(id);
    Rewrite(old(t.slab), id, u.n, Dropped(u.n));
  }

  /** The non-proxy half of arp_req_delete: the linked entry of (pa, dev)
      is made to fail by an administrative neigh_update; an entry without
      state or a NOARP entry is left alone, and then, as when there is no
      entry, the result is -ENXIO. */
  method ReqDeleteEntry(t: Table, pa: Ip, d: NetDev, now: int) returns (err: int, ghost found: Option<Id>)
    requires t.Valid() && DevOk(d)
    modifies t
    ensures t.Valid() && t.entries == old(t.entries) && t.parms == old(t.parms) && t.phash == old(t.phash)
    ensures found.None? <==> forall id :: id in old(t.slab) && !old(t.slab)[id].dead ==> !Matches(old(t.slab)[id], pa, d.dev)
    ensures found.Some? ==> Listed(old(t.slab), found.value, pa, d.dev)
    ensures found.None? ==> err == -ENXIO && t.slab == old(t.slab)
    ensures found.Some? && (old(t.slab)[found.value].nudState == NONE || old(t.slab)[found.value].nudState == NOARP) ==>
      err == -ENXIO && t.slab == old(t.slab)
    ensures found.Some? && old(t.slab)[found.value].nudState != NONE && old(t.slab)[found.value].nudState != NOARP ==>
      var e := old(t.slab)[found.value];
      var u := UpdateStep(Held(e), old(t.parms)[e.parms], None, FAILED, ADMIN_OVERRIDE, now);
      && err == 0 && t.slab == old(t.slab)[found.value := Dropped(u.n)]
      && t.slab[found.value].nudState == FAILED && t.slab[found.value].timer.None?
  {
    err := -ENXIO;
    var l := t.Lookup(pa, d.dev);
    found := l;
    if l.Some? {
      var id := l.value;
      ghost var s0 := old(t.slab);
      assert EntryOk(s0[id]) by {
        assert CacheOk(s0, old(t.buckets), t.hash, old(t.hashRnd), old(t.parms), old(t.nextId));
      }
      var n := t.slab[id];
      assert n.nudState == s0[id].nudState;
      if n.nudState != NONE && n.nudState != NOARP {
        err := FailHeld(t, id, now);
        Rewrite(s0, id, Held(s0[id]), t.slab[id]);
      } else {
        ghost var s1 := t.slab;
        var _ := t.Release(id);
        assert Dropped(s1[id]) == s0[id];
        Rewrite(s0, id, Held(s0[id]), s0[id]);
        WriteSame(s0, id);
        assert t.slab == s0;
      }
    }
  }

  /** The set step on an entry the caller holds: an administrative
      neigh_update with the request's address and state, then the release of
      the caller's reference. */
  method SetHeld(t: Table, id: Id, r: ArpReq, now: int) returns (err: int)
    requires t.Valid() && id in t.slab && CallerHolds(t.slab[id]) && !t.slab[id].dead
    requires |r.ha| >= t.slab[id].dev.addrLen
    modifies t
    ensures t.Valid() && t.entries == old(t.entries) && t.parms == old(t.parms) && t.slab.Keys == old(t.slab).Keys
    ensures t.phash == old(t.phash)
    ensures var e := old(t.slab)[id];
      var u := UpdateStep(e, old(t.parms)[e.parms], SetLladdr(r), SetState(r), ADMIN_OVERRIDE, now);
      err == u.err && t.slab == old(t.slab)[id := Dropped(u.n)]
    ensures Listed(old(t.slab), id, t.slab[id].key, t.slab[id].dev) && Listed(t.slab, id, t.slab[id].key, t.slab[id].dev)
  {
    var u := t.UpdateEntry(id, SetLladdr(r), SetState(r), ADMIN_OVERRIDE, now);
    err := u.err;
    var _ := t.Release(id);
    Rewrite(old(t.slab), id, u.n, Dropped(u.n));
  }

  /** What the non-proxy half of arp_req_set leaves, from the slab `s0` to
      the slab `s1`, with `pre` the entry as the lookup found it or the
      creation made it (holding the caller's reference):
      - a family the device cannot take is -EINVAL and changes nothing;
      - without an entry the result is -EINVAL or -ENOBUFS;
      - the entry, linked for (pa, dev), is updated by the administrative
        neigh_update and released, and the result is neigh_update's;
      - an existing entry is reused and no other entry changes;
      - with an address the result is 0 and the entry holds the address and
        reads back as complete, permanent for ATF_PERM;
      - without one, neigh_update refuses an entry that has no valid address
        yet with -EINVAL, and the entry stays as found or made. */
  ghost predicate SetEntryDone(s0: Slab, s1: Slab, ps: map<ParmsId, Parms>, r: ArpReq, d: NetDev, now: int,
                               err: int, found: Option<Id>, pre: Neigh)
    requires |r.ha| >= d.dev.addrLen
  {
    && (!FamilyFits(r.haFamily, d.devType) ==> err == -EINVAL && found.None? && s1 == s0)
    && (found.None? ==> err == -EINVAL || err == -ENOBUFS)
    && (found.Some? ==> Listed(s1, found.value, r.pa, d.dev))
    && (FamilyFits(r.haFamily, d.devType) && (exists id :: Listed(s0, id, r.pa, d.dev)) ==>
          found.Some? && Listed(s0, found.value, r.pa, d.dev) && pre == Held(s0[found.value]))
    && (found.Some? ==>
          && EntryOk(pre) && pre.dev == d.dev && pre.parms in ps
          && var u := UpdateStep(pre, ps[pre.parms], SetLladdr(Promoted(r)), SetState(Promoted(r)), ADMIN_OVERRIDE, now);
             && err == u.err && s1[found.value] == Dropped(u.n)
             && (found.value in s0 && pre == Held(s0[found.value]) ==> s1 == s0[found.value := Dropped(u.n)]))
    && (found.Some? && r.flags & (ATF_COM | ATF_PERM) == 0 ==>
          && (err == -EINVAL <==> d.dev.addrLen != 0 && !IsValid(pre.nudState))
          && (err != 0 ==> s1[found.value] == Dropped(pre)))
    && (found.Some? && r.flags & (ATF_COM | ATF_PERM) != 0 ==>
          && err == 0
          && s1[found.value].ha[..d.dev.addrLen] == r.ha[..d.dev.addrLen]
          && StateToFlags(s1[found.value].nudState) & ATF_COM != 0
          && (r.flags & ATF_PERM != 0 ==> StateToFlags(s1[found.value].nudState) == ATF_PERM | ATF_COM))
  }

  /** The step from what the lookup and SetHeld leave to SetEntryDone:
      `s1` is the slab after __neigh_lookup_errno handed over the entry
      `id`, `s2` the slab after neigh_update and the release. */
  lemma SetEntryStep(s0: Slab, s1: Slab, s2: Slab, ps: map<ParmsId, Parms>, r: ArpReq, d: NetDev, now: int,
                     err: int, id: Id)
    requires |r.ha| >= d.dev.addrLen && FamilyFits(r.haFamily, d.devType)
    requires id in s1 && !s1[id].dead && Matches(s1[id], r.pa, d.dev)
    requires EntryOk(s1[id]) && s1[id].parms in ps
    requires (exists i :: Listed(s0, i, r.pa, d.dev)) ==> id in s0 && s1 == s0[id := Held(s0[id])]
    requires var e := s1[id];
      var u := UpdateStep(e, ps[e.parms], SetLladdr(Promoted(r)), SetState(Promoted(r)), ADMIN_OVERRIDE, now);
      err == u.err && s2 == s1[id := Dropped(u.n)]
    ensures SetEntryDone(s0, s2, ps, r, d, now, err, Some(id), s1[id])
  {
    var e := s1[id];
    var u := UpdateStep(e, ps[e.parms], SetLladdr(Promoted(r)), SetState(Promoted(r)), ADMIN_OVERRIDE, now);
    if Promoted(r).flags & (ATF_COM | ATF_PERM) != 0 {
      SetOutcome(e, ps[e.parms], Promoted(r), now);
    } else {
      NoAddressOutcome(e, ps[e.parms], Promoted(r), now);
    }
    if id in s0 && e == Held(s0[id]) {
      assert Listed(s0, id, r.pa, d.dev);
      assert s1 == s0[id := e];
      Rewrite(s0, id, e, Dropped(u.n));
    }
  }

  /** The non-proxy half of arp_req_set on the device `d` the request
      reaches: the hardware address family must suit the device; the entry
      of (pa, d) is found or created (__neigh_lookup_errno, with arp's
      constructor) and set by an administrative neigh_update.  A set with an
      address (ATF_COM, or ATF_PERM, which implies it) always succeeds, and
      the entry then reads back as arp_req_get would report it: with that
      address, complete, and permanent when ATF_PERM was asked for. */
  method ReqSetEntry(t: Table, r: ArpReq, d: NetDev, inDev: Option<InDev>, addrType: Key -> nat, linkMap: Key -> seq<byte>,
                     now: int, oom: bool, rnd: nat, growOom: bool)
    returns (err: int, ghost found: Option<Id>, ghost pre: Neigh)
    requires t.Valid() && t.Counted() && DevOk(d) && |r.ha| >= d.dev.addrLen
    requires inDev.Some? ==> inDev.value.arpParms in t.parms
    modifies t
    ensures t.Valid() && t.Counted() && t.parms == old(t.parms) && t.phash == old(t.phash)
    ensures FamilyFits(r.haFamily, d.devType) && (exists id :: Listed(old(t.slab), id, r.pa, d.dev)) ==>
      t.entries == old(t.entries)
    ensures SetEntryDone(old(t.slab), t.slab, t.parms, r, d, now, err, found, pre)
  {
    found, pre := None, Fresh(t.parmsList[0], now);
    if !FamilyFits(r.haFamily, d.devType) {
      return -EINVAL, None, pre;
    }
    var req := Promoted(r);
    var ctor := (n: Neigh) => Constructor(n, d, inDev, addrType, linkMap);
    var l := t.LookupErrno(r.pa, d.dev, ctor, now, oom, rnd, growOom);
    if l.Err? {
      err := l.errno;
    } else {
      var id := l.value;
      ghost var s1 := t.slab;
      assert EntryOk(s1[id]) && s1[id].parms in t.parms by {
        assert CacheOk(s1, t.buckets, t.hash, t.hashRnd, t.parms, t.nextId);
      }
      err := SetHeld(t, id, req, now);
      SetEntryStep(old(t.slab), s1, t.slab, t.parms, r, d, now, err, id);
      found, pre := Some(id), s1[id];
    }
  }

  // ---------------------------------------------------------------------
  // Proxy ARP: ATF_PUBL requests
  // ---------------------------------------------------------------------

  /** A proxy_arp switch to set: that of one device's IPv4 configuration, or
      (`dev` None) the default for all devices. */
  datatype ProxySwitch = ProxySwitch(dev: Option<Dev>, on: bool)

  function DevOf(d: Option<NetDev>): Option<Dev> {
    if d.Some? then Some(d.value.dev) else None
  }

  /** arp_req_set_proxy: the switch to turn `on` or off; a device without
      an IPv4 configuration (`inDevOf` stands for __in_dev_get_rtnl) has no
      switch, -ENXIO. */
  function SetProxy(dev: Option<NetDev>, inDevOf: NetDev -> Option<InDev>, on: bool): (r: Result<ProxySwitch>)
    ensures r.Err? <==> dev.Some? && inDevOf(dev.value).None?
    ensures r.Err? ==> r.errno == -ENXIO
    ensures r.Ok? ==> r.value == ProxySwitch(DevOf(dev), on)
  {
    if dev.None? then Ok(ProxySwitch(None, on))
    else if inDevOf(dev.value).Some? then Ok(ProxySwitch(Some(dev.value.dev), on))
    else Err(-ENXIO)
  }

  /** Turning proxy ARP off undoes turning it on: both reach the same switch
      or fail alike. */
  lemma SetProxyUndo(dev: Option<NetDev>, inDevOf: NetDev -> Option<InDev>)
    ensures SetProxy(dev, inDevOf, true).Ok? <==> SetProxy(dev, inDevOf, false).Ok?
    ensures SetProxy(dev, inDevOf, true).Ok? ==>
      SetProxy(dev, inDevOf, true).value.dev == SetProxy(dev, inDevOf, false).value.dev
      && SetProxy(dev, inDevOf, true).value.on && !SetProxy(dev, inDevOf, false).value.on
  {
  }

  /** The device a public set applies to: the one named, or for a complete
      entry the device owning the request's hardware address (`byHw` stands
      for dev_getbyhwaddr). */
  function PublicDev(r: ArpReq, dev: Option<NetDev>, byHw: Option<NetDev>): Option<NetDev> {
    if dev.None? && r.flags & ATF_COM != 0 then byHw else dev
  }

  /** arp_req_set_public: a netmask other than none or all ones is -EINVAL;
      a complete entry on no named device needs a device owning its hardware
      address, else -ENODEV; a host mask installs a proxy entry for (pa,
      device), which -ENOBUFS reports could not be made; no mask turns on
      proxy ARP for the device (or for all devices). */
  method ReqSetPublic(t: Table, r: ArpReq, dev: Option<NetDev>, byHw: Option<NetDev>, inDevOf: NetDev -> Option<InDev>,
                      oom: bool, refused: bool)
    returns (err: int, sw: Option<ProxySwitch>)
    requires t.Valid()
    modifies t
    ensures t.Valid() && t.slab == old(t.slab) && t.entries == old(t.entries) && t.parms == old(t.parms)
    ensures r.netmask != ANY && r.netmask != ALL_ONES ==> err == -EINVAL && sw.None? && t.phash == old(t.phash)
    ensures (r.netmask == ANY || r.netmask == ALL_ONES) && dev.None? && r.flags & ATF_COM != 0 && byHw.None? ==>
      err == -ENODEV && sw.None? && t.phash == old(t.phash)
    ensures r.netmask == ALL_ONES && (dev.Some? || r.flags & ATF_COM == 0 || byHw.Some?) ==>
      sw.None?
      && (err == 0 <==> Proxy.PFind(t.phash[PneighHash(r.pa)], r.pa, DevOf(PublicDev(r, dev, byHw))).Some?)
      && (err != 0 ==> err == -ENOBUFS && t.phash == old(t.phash))
      && var h := PneighHash(r.pa);
         var e := PEntry(r.pa, DevOf(PublicDev(r, dev, byHw)));
         && (Proxy.PFind(old(t.phash)[h], e.key, e.dev).Some? ==> err == 0 && t.phash == old(t.phash))
         && (Proxy.PFind(old(t.phash)[h], e.key, e.dev).None? && err == 0 ==>
               t.phash == old(t.phash)[h := [e] + old(t.phash)[h]])
    ensures r.netmask == ANY && (dev.Some? || r.flags & ATF_COM == 0 || byHw.Some?) ==>
      t.phash == old(t.phash)
      && var p := SetProxy(PublicDev(r, dev, byHw), inDevOf, true);
         if p.Ok? then err == 0 && sw == Some(p.value) else err == p.errno && sw.None?
  {
    sw := None;
    if r.netmask != ANY && r.netmask != ALL_ONES {
      return -EINVAL, None;
    }
    var d := dev;
    if d.None? && r.flags & ATF_COM != 0 {
      d := byHw;
      if d.None? {
        return -ENODEV, None;
      }
    }
    if r.netmask != ANY {
      var p := t.PneighLookup(r.pa, DevOf(d), true, oom, refused);
      err := if p.None? then -ENOBUFS else 0;
    } else {
      var q := SetProxy(d, inDevOf, true);
      if q.Ok? {
        err, sw := 0, Some(q.value);
      } else {
        err := q.errno;
      }
    }
  }

  /** arp_req_delete_public: a host mask removes the proxy entry of exactly
      (pa, dev), -ENOENT when there is none; another non-zero mask is
      -EINVAL; no mask turns proxy ARP off for the device (or for all). */
  method ReqDeletePublic(t: Table, r: ArpReq, dev: Option<NetDev>, inDevOf: NetDev -> Option<InDev>)
    returns (err: int, sw: Option<ProxySwitch>)
    requires t.Valid()
    modifies t
    ensures t.Valid() && t.slab == old(t.slab) && t.entries == old(t.entries) && t.parms == old(t.parms)
    ensures r.netmask == ALL_ONES ==>
      && sw.None?
      && (err == 0 <==> PEntry(r.pa, DevOf(dev)) in old(t.phash)[PneighHash(r.pa)])
      && (err == 0 ==> PEntry(r.pa, DevOf(dev)) !in t.phash[PneighHash(r.pa)])
      && (err != 0 ==> err == -ENOENT && t.phash == old(t.phash))
      && (err == 0 ==>
            var c := old(t.phash)[PneighHash(r.pa)];
            var j := PIndex(c, r.pa, DevOf(dev)).value;
            t.phash == old(t.phash)[PneighHash(r.pa) := c[..j] + c[j + 1..]])
    ensures r.netmask != ALL_ONES && r.netmask != ANY ==> err == -EINVAL && sw.None? && t.phash == old(t.phash)
    ensures r.netmask == ANY ==>
      t.phash == old(t.phash)
      && var p := SetProxy(dev, inDevOf, false);
         if p.Ok? then err == 0 && sw == Some(p.value) else err == p.errno && sw.None?
  {
    sw := None;
    if r.netmask == ALL_ONES {
      err := t.PneighDelete(r.pa, DevOf(dev));
    } else if r.netmask != ANY {
      err := -EINVAL;
    } else {
      var q := SetProxy(dev, inDevOf, false);
      if q.Ok? {
        err, sw := 0, Some(q.value);
      } else {
        err := q.errno;
      }
    }
  }

  // ---------------------------------------------------------------------
  // SIOCSARP and SIOCDARP
  // ---------------------------------------------------------------------

  /** arp_req_set: ATF_PUBL requests go to the proxy side; any other request
      reaches a device (named, or by route) and sets its entry for pa.  A
      set with an address reports success exactly when an entry was found
      or made, and that entry then holds the address and reads back as
      complete (and permanent for ATF_PERM). */
  method ReqSet(t: Table, r: ArpReq, dev: Option<NetDev>, routed: Result<Option<NetDev>>, byHw: Option<NetDev>,
                inDevOf: NetDev -> Option<InDev>, addrType: Key -> nat, linkMap: Key -> seq<byte>,
                now: int, oom: bool, rnd: nat, growOom: bool, refused: bool)
    returns (err: int, sw: Option<ProxySwitch>, ghost found: Option<Id>, ghost pre: Neigh)
    requires t.Valid() && t.Counted() && ReqDevOk(r, dev, routed)
    requires forall nd: NetDev :: inDevOf(nd).Some? ==> inDevOf(nd).value.arpParms in t.parms
    modifies t
    ensures t.Valid() && t.Counted() && t.parms == old(t.parms)
    ensures r.flags & ATF_PUBL != 0 ==> t.slab == old(t.slab) && found.None?
    // the proxy side, as ReqSetPublic states it
    ensures r.flags & ATF_PUBL != 0 && r.netmask != ANY && r.netmask != ALL_ONES ==>
      err == -EINVAL && sw.None? && t.phash == old(t.phash)
    ensures r.flags & ATF_PUBL != 0 && (r.netmask == ANY || r.netmask == ALL_ONES)
            && dev.None? && r.flags & ATF_COM != 0 && byHw.None? ==>
      err == -ENODEV && sw.None? && t.phash == old(t.phash)
    ensures r.flags & ATF_PUBL != 0 && r.netmask == ALL_ONES && (dev.Some? || r.flags & ATF_COM == 0 || byHw.Some?) ==>
      var h := PneighHash(r.pa);
      var e := PEntry(r.pa, DevOf(PublicDev(r, dev, byHw)));
      && sw.None?
      && (err == 0 <==> Proxy.PFind(t.phash[h], e.key, e.dev).Some?)
      && (err != 0 ==> err == -ENOBUFS && t.phash == old(t.phash))
      && (Proxy.PFind(old(t.phash)[h], e.key, e.dev).Some? ==> err == 0 && t.phash == old(t.phash))
      && (Proxy.PFind(old(t.phash)[h], e.key, e.dev).None? && err == 0 ==>
            t.phash == old(t.phash)[h := [e] + old(t.phash)[h]])
    ensures r.flags & ATF_PUBL != 0 && r.netmask == ANY && (dev.Some? || r.flags & ATF_COM == 0 || byHw.Some?) ==>
      t.phash == old(t.phash)
      && var p := SetProxy(PublicDev(r, dev, byHw), inDevOf, true);
         if p.Ok? then err == 0 && sw == Some(p.value) else err == p.errno && sw.None?
    ensures r.flags & ATF_PUBL == 0 ==> sw.None? && t.phash == old(t.phash)
    ensures r.flags & ATF_PUBL == 0 && RouteDev(dev, routed).Err? ==>
      err == RouteDev(dev, routed).errno && found.None? && t.slab == old(t.slab)
    ensures r.flags & ATF_PUBL == 0 && RouteDev(dev, routed).Ok? ==>
      var d := RouteDev(dev, routed).value;
      && (found.Some? ==> Listed(t.slab, found.value, r.pa, d.dev))
      && (r.flags & (ATF_COM | ATF_PERM) != 0 ==>
            && (err == 0 <==> found.Some?)
            && (found.Some? ==>
                  && t.slab[found.value].ha[..d.dev.addrLen] == r.ha[..d.dev.addrLen]
                  && StateToFlags(t.slab[found.value].nudState) & ATF_COM != 0
                  && (r.flags & ATF_PERM != 0 ==> StateToFlags(t.slab[found.value].nudState) == ATF_PERM | ATF_COM)))
    // the entry side, as ReqSetEntry states it
    ensures r.flags & ATF_PUBL == 0 && RouteDev(dev, routed).Ok? ==>
      SetEntryDone(old(t.slab), t.slab, t.parms, r, RouteDev(dev, routed).value, now, err, found, pre)
  {
    sw, found, pre := None, None, Fresh(t.parmsList[0], now);
    if r.flags & ATF_PUBL != 0 {
      err, sw := ReqSetPublic(t, r, dev, byHw, inDevOf, oom, refused);
    } else {
      var rd := RouteDev(dev, routed);
      if rd.Err? {
        err := rd.errno;
      } else {
        err, found, pre := ReqSetEntry(t, r, rd.value, inDevOf(rd.value), addrType, linkMap, now, oom, rnd, growOom);
      }
    }
  }

  /** arp_req_delete: ATF_PUBL requests go to the proxy side; any other
      request reaches a device (named, or by route) and fails its entry for
      pa, as ReqDeleteEntry states. */
  method ReqDelete(t: Table, r: ArpReq, dev: Option<NetDev>, routed: Result<Option<NetDev>>,
                   inDevOf: NetDev -> Option<InDev>, now: int)
    returns (err: int, sw: Option<ProxySwitch>, ghost found: Option<Id>)
    requires t.Valid() && ReqDevOk(r, dev, routed)
    modifies t
    ensures t.Valid() && t.entries == old(t.entries) && t.parms == old(t.parms)
    ensures r.flags & ATF_PUBL != 0 ==> t.slab == old(t.slab) && found.None?
    // the proxy side, as ReqDeletePublic states it
    ensures r.flags & ATF_PUBL != 0 && r.netmask == ALL_ONES ==>
      var c := old(t.phash)[PneighHash(r.pa)];
      && sw.None?
      && (err == 0 <==> PEntry(r.pa, DevOf(dev)) in c)
      && (err != 0 ==> err == -ENOENT && t.phash == old(t.phash))
      && (err == 0 ==>
            var j := PIndex(c, r.pa, DevOf(dev)).value;
            t.phash == old(t.phash)[PneighHash(r.pa) := c[..j] + c[j + 1..]])
    ensures r.flags & ATF_PUBL != 0 && r.netmask != ALL_ONES && r.netmask != ANY ==>
      err == -EINVAL && sw.None? && t.phash == old(t.phash)
    ensures r.flags & ATF_PUBL != 0 && r.netmask == ANY ==>
      t.phash == old(t.phash)
      && var p := SetProxy(dev, inDevOf, false);
         if p.Ok? then err == 0 && sw == Some(p.value) else err == p.errno && sw.None?
    ensures r.flags & ATF_PUBL == 0 ==> sw.None? && t.phash == old(t.phash)
    ensures r.flags & ATF_PUBL == 0 && RouteDev(dev, routed).Err? ==>
      err == RouteDev(dev, routed).errno && found.None? && t.slab == old(t.slab)
    ensures r.flags & ATF_PUBL == 0 && RouteDev(dev, routed).Ok? ==>
      var d := RouteDev(dev, routed).value;
      && (found.Some? ==> Listed(old(t.slab), found.value, r.pa, d.dev))
      && (err == 0 <==> found.Some? && old(t.slab)[found.value].nudState != NONE && old(t.slab)[found.value].nudState != NOARP)
      && (err == 0 ==> found.Some? && found.value in t.slab
                       && t.slab[found.value].nudState == FAILED && t.slab[found.value].timer.None?)
      && (err == 0 ==>
            var e := old(t.slab)[found.value];
            var u := UpdateStep(Held(e), old(t.parms)[e.parms], None, FAILED, ADMIN_OVERRIDE, now);
            t.slab == old(t.slab)[found.value := Dropped(u.n)])
      && (err != 0 ==> err == -ENXIO && t.slab == old(t.slab))
  {
    sw, found := None, None;
    if r.flags & ATF_PUBL != 0 {
      err, sw := ReqDeletePublic(t, r, dev, inDevOf);
    } else {
      var rd := RouteDev(dev, routed);
      if rd.Err? {
        err := rd.errno;
      } else {
        err, found := ReqDeleteEntry(t, r.pa, rd.value, now);
      }
    }
  }
}
