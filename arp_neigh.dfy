/**
 * The neighbour-side routines of ARP (net/ipv4/arp.c): the protocol
 * constructor run on every new entry of the ARP table, the choice of probe
 * and source address when an entry solicits, the `arp_ignore` reply policy
 * and the translation of a neighbour state into the flags of the ioctl
 * interface.
 *
 * The in_device (a device's IPv4 configuration) and the answers of the
 * routing code (`inet_addr_type`, `inet_confirm_addr`, `inet_addr_onlink`,
 * `inet_select_addr`) are parameters.
 */
module ArpNeigh {
  import opened Wrappers
  import opened Nud
  import opened NeighEntry
  import opened ArpWire

  // Route types (RTN_*) as returned by inet_addr_type.
  const RTN_UNICAST: nat := 1
  const RTN_LOCAL: nat := 2
  const RTN_BROADCAST: nat := 3
  const RTN_MULTICAST: nat := 5

  const ARPHRD_INFINIBAND: u16 := 32

  // The flags of struct arpreq.
  const ATF_COM: bv32 := 0x02
  const ATF_PERM: bv32 := 0x04
  const ATF_PUBL: bv32 := 0x08

  /** The address 0.0.0.0, the "no address" of the C code. */
  const ANY: Ip := [0, 0, 0, 0]

  /** The ARP part of a device's IPv4 configuration (struct in_device): its
      ARP parameter block and the arp_ignore / arp_announce / arp_filter
      settings, already combined with the "all" defaults. */
  datatype InDev = InDev(arpParms: ParmsId, arpIgnore: nat, arpAnnounce: nat, arpFilter: bool, forwarding: bool)

  /** Scopes passed to inet_confirm_addr. */
  datatype Scope = ScopeHost | ScopeLink

  // -------------------------------------------------------------------------
  // arp_constructor
  // -------------------------------------------------------------------------

  /** memcpy(ha, src, len) into the fixed-size `ha` array of an entry. */
  function Overwrite(ha: seq<byte>, src: seq<byte>, len: nat): (r: seq<byte>)
    ensures |r| == |ha|
    ensures len <= |ha| && len <= |src| ==> r[..len] == src[..len] && r[len..] == ha[len..]
  {
    seq(|ha|, i requires 0 <= i < |ha| => if i < len && i < |src| then src[i] else ha[i])
  }

  /** arp_mc_map towards the device (`dir` 1): IEEE 802 style and InfiniBand
      devices use their multicast mapping (`linkMap`, standing for
      ip_eth_mc_map, ip_tr_mc_map and ip_ib_mc_map), any other device its
      broadcast address. */
  function McMap(key: Key, d: NetDev, linkMap: Key -> seq<byte>): seq<byte> {
    if d.devType in {ARPHRD_ETHER, ARPHRD_FDDI, ARPHRD_IEEE802, ARPHRD_IEEE802_TR, ARPHRD_INFINIBAND} then linkMap(key)
    else d.broadcast
  }

  /** The AX.25 family, whose devices keep the obsolete resolution path. */
  predicate AmateurDev(d: NetDev) {
    d.devType == ARPHRD_ROSE || d.devType == ARPHRD_AX25 || d.devType == ARPHRD_NETROM
  }

  /** The neighbour gets no resolution at all: a multicast address, a NOARP
      or loopback device, a broadcast address or a point-to-point link. */
  predicate NoResolution(d: NetDev, addrType: nat) {
    addrType == RTN_MULTICAST || d.noarp || d.loopback || addrType == RTN_BROADCAST || d.pointToPoint
  }

  /** arp_constructor on a new entry of device `d`: fails with -EINVAL when
      the device has no IPv4 configuration; otherwise records the address
      type, takes the device's ARP parameters and chooses state, operations,
      output and (for addresses that need no resolution) the hardware
      address.  `addrType` stands for inet_addr_type. */
  function Constructor(n: Neigh, d: NetDev, inDev: Option<InDev>, addrType: Key -> nat, linkMap: Key -> seq<byte>)
    : (r: Result<Neigh>)
    ensures r.Err? <==> inDev.None?
    ensures r.Err? ==> r.errno == -EINVAL
    ensures r.Ok? ==> r.value.key == n.key && r.value.dev == n.dev && |r.value.ha| == |n.ha|
    ensures r.Ok? ==> r.value.parms == inDev.value.arpParms && r.value.ntype == addrType(n.key)
  {
    if inDev.None? then Err(-EINVAL)
    else
      var n1 := n.(ntype := addrType(n.key), parms := inDev.value.arpParms);
      var len := d.dev.addrLen;
      if !d.headerOps then
        Ok(n1.(nudState := NOARP, ops := DirectOps, output := OpsQueueXmit))
      else if AmateurDev(d) then
        Ok(n1.(ops := BrokenOps, output := OpsOutput))
      else
        var n2 :=
          if n1.ntype == RTN_MULTICAST then n1.(nudState := NOARP, ha := Overwrite(n1.ha, McMap(n.key, d, linkMap), len))
          else if d.noarp || d.loopback then n1.(nudState := NOARP, ha := Overwrite(n1.ha, d.devAddr, len))
          else if n1.ntype == RTN_BROADCAST || d.pointToPoint then n1.(nudState := NOARP, ha := Overwrite(n1.ha, d.broadcast, len))
          else n1;
        Ok(n2.(ops := if d.headerCache then HhOps else GenericOps,
               output := if IsValid(n2.nudState) then OpsConnectedOutput else OpsOutput))
  }

  /** On a device with link-layer headers (other than the AX.25 family), a
      fresh entry becomes NOARP exactly when its address needs no
      resolution, and then takes the multicast mapping, the device's own
      address or the broadcast address, in that order of precedence; it uses
      the connected output exactly when its state is valid. */
  lemma ConstructorChoice(n: Neigh, d: NetDev, inDev: Option<InDev>, addrType: Key -> nat, linkMap: Key -> seq<byte>)
    requires DevOk(d) && n.dev == d.dev && |n.ha| == MAX_ADDR_LEN && n.nudState == NONE
    requires inDev.Some? && d.headerOps && !AmateurDev(d)
    requires |McMap(n.key, d, linkMap)| >= d.dev.addrLen
    ensures var r := Constructor(n, d, inDev, addrType, linkMap).value;
      && (r.nudState == NOARP <==> NoResolution(d, addrType(n.key)))
      && (r.nudState != NOARP ==> r.nudState == NONE && r.ha == n.ha)
      && (r.output == OpsConnectedOutput <==> IsValid(r.nudState))
      && r.ops == (if d.headerCache then HhOps else GenericOps)
    ensures var r := Constructor(n, d, inDev, addrType, linkMap).value;
      var len := d.dev.addrLen;
      && (addrType(n.key) == RTN_MULTICAST ==> r.ha[..len] == McMap(n.key, d, linkMap)[..len])
      && (addrType(n.key) != RTN_MULTICAST && (d.noarp || d.loopback) ==> r.ha[..len] == d.devAddr[..len])
      && (addrType(n.key) != RTN_MULTICAST && !(d.noarp || d.loopback) && NoResolution(d, addrType(n.key)) ==>
            r.ha[..len] == d.broadcast[..len])
      && r.ha[len..] == n.ha[len..]
  {
    var len := d.dev.addrLen;
    assert n.ha[len..] == n.ha[len..];
    if addrType(n.key) == RTN_MULTICAST {
      assert Overwrite(n.ha, McMap(n.key, d, linkMap), len)[len..] == n.ha[len..];
    }
  }

  /** A device without link-layer headers needs no resolution at all; an
      AX.25-family device keeps the entry's state and uses the compatibility
      output. */
  lemma ConstructorSpecialDevices(n: Neigh, d: NetDev, inDev: Option<InDev>, addrType: Key -> nat, linkMap: Key -> seq<byte>)
    requires inDev.Some?
    ensures !d.headerOps ==> var r := Constructor(n, d, inDev, addrType, linkMap).value;
      r.nudState == NOARP && r.ops == DirectOps && r.output == OpsQueueXmit && r.ha == n.ha
    ensures d.headerOps && AmateurDev(d) ==> var r := Constructor(n, d, inDev, addrType, linkMap).value;
      r.nudState == n.nudState && r.ops == BrokenOps && r.output == OpsOutput && r.ha == n.ha
  {
  }

  // -------------------------------------------------------------------------
  // arp_solicit
  // -------------------------------------------------------------------------

  /** What a solicitation does: tell the user-space daemon only, or send a
      request (to the cached address, or broadcast when `dstHa` is absent). */
  datatype Probe = AppProbe | Request(dstHa: Option<seq<byte>>)

  /** The probe arp_solicit chooses after `probes` probes: the first
      ucast_probes go to the cached address, the next app_probes to the
      daemon, the rest are broadcast. */
  function ProbeKind(probes: int, p: Parms, ha: seq<byte>): (k: Probe)
    ensures k == Request(Some(ha)) <==> probes < p.ucastProbes
    ensures k == AppProbe <==> p.ucastProbes <= probes < p.ucastProbes + p.appProbes
    ensures k == Request(None) <==> probes >= p.ucastProbes + p.appProbes
  {
    var left := probes - p.ucastProbes;
    if left < 0 then Request(Some(ha))
    else if left - p.appProbes < 0 then AppProbe
    else Request(None)
  }

  /** The sender address arp_solicit announces under arp_announce `mode`:
      the source of the packet that triggered resolution (`skbSaddr`) when
      it is local (mode 0) or local and on the target's subnet (mode 1);
      otherwise, and always in mode 2, what inet_select_addr picks
      (`selected`).  `isLocal` and `onlink` stand for inet_addr_type and
      inet_addr_onlink. */
  function AnnounceSource(mode: nat, skbSaddr: Option<Ip>, isLocal: Ip -> bool, onlink: Ip -> bool, selected: Ip): Ip {
    var chosen :=
      if mode == 1 then
        (if skbSaddr.Some? && isLocal(skbSaddr.value) && onlink(skbSaddr.value) then skbSaddr.value else ANY)
      else if mode == 2 then ANY
      else
        (if skbSaddr.Some? && isLocal(skbSaddr.value) then skbSaddr.value else ANY);
    if chosen == ANY then selected else chosen
  }

  /** The announced address is the selected one or a local source of the
      triggering packet, never a foreign one; mode 2 always selects, mode 1
      keeps a source only on the target's subnet. */
  lemma AnnounceIsLocal(mode: nat, skbSaddr: Option<Ip>, isLocal: Ip -> bool, onlink: Ip -> bool, selected: Ip)
    ensures var s := AnnounceSource(mode, skbSaddr, isLocal, onlink, selected);
      s == selected || (skbSaddr.Some? && s == skbSaddr.value && isLocal(s))
    ensures mode == 2 ==> AnnounceSource(mode, skbSaddr, isLocal, onlink, selected) == selected
    ensures var s := AnnounceSource(mode, skbSaddr, isLocal, onlink, selected);
      mode == 1 && s != selected ==> onlink(s)
    ensures skbSaddr.None? ==> AnnounceSource(mode, skbSaddr, isLocal, onlink, selected) == selected
  {
  }

  /** arp_solicit: nothing without an IPv4 configuration; otherwise the
      probe chosen from the entry's probe count, sent as an ARP request for
      the entry's key from the device's address (the request itself may
      still be dropped by arp_send). */
  method Solicit(n: Neigh, p: Parms, d: NetDev, inDev: Option<InDev>, skbSaddr: Option<Ip>,
                 isLocal: Ip -> bool, onlink: Ip -> bool, selected: Ip, oom: bool, headerFails: bool)
    returns (frame: Option<Frame>, app: bool)
    requires DevOk(d) && |n.key| == 4
    ensures inDev.None? ==> frame.None? && !app
    ensures inDev.Some? ==> (app <==> ProbeKind(n.probes, p, n.ha) == AppProbe)
    ensures frame.Some? ==>
      && inDev.Some? && ProbeKind(n.probes, p, n.ha).Request?
      && frame.value == CreatedFrame(ARPOP_REQUEST as int, ETH_P_ARP as int, n.key, d,
           AnnounceSource(inDev.value.arpAnnounce, skbSaddr, isLocal, onlink, selected),
           ProbeKind(n.probes, p, n.ha).dstHa, Some(d.devAddr), None)
    ensures inDev.Some? && ProbeKind(n.probes, p, n.ha).Request? && frame.None? ==> d.noarp || oom || headerFails
  {
    frame, app := None, false;
    if inDev.None? {
      return;
    }
    var saddr := AnnounceSource(inDev.value.arpAnnounce, skbSaddr, isLocal, onlink, selected);
    var probe := ProbeKind(n.probes, p, n.ha);
    if probe == AppProbe {
      app := true;
      return;
    }
    frame := Send(ARPOP_REQUEST as int, ETH_P_ARP as int, n.key, d, saddr, probe.dstHa, Some(d.devAddr), None, oom, headerFails);
  }

  /** A solicitation for an ordinary unicast address reaches any ARP
      receiver on a device of the same type as a request whose target is
      the entry's key and whose sender is the device and the announced
      address. */
  lemma SolicitationIsUnderstood(key: Ip, d: NetDev, e: NetDev, saddr: Ip, dstHa: Option<seq<byte>>, pt: PktType)
    requires DevOk(d) && DevOk(e)
    requires e.devType == d.devType && e.dev.addrLen == d.dev.addrLen && !e.noarp
    requires pt != PACKET_OTHERHOST && pt != PACKET_LOOPBACK
    requires !IsLoopback(key) && !IsMulticast(key)
    ensures var pkt := CreatedFrame(ARPOP_REQUEST as int, ETH_P_ARP as int, key, d, saddr, dstHa, Some(d.devAddr), None).arp;
      && RcvAccepts(pkt, e, pt) && ProcessAccepts(pkt, e)
      && ParseHdr(pkt).op == ARPOP_REQUEST
      && Extract(pkt, e.dev.addrLen) == Fields(d.devAddr[..d.dev.addrLen], saddr, key)
  {
    CreatedIsAccepted(d, e, ARPOP_REQUEST as int, saddr, key, Some(d.devAddr), None, pt);
    ExtractEncode(CreatedHdr(d, ARPOP_REQUEST as int), SenderHw(d, Some(d.devAddr)), saddr, TargetHw(d, None), key);
  }

  // -------------------------------------------------------------------------
  // arp_ignore
  // -------------------------------------------------------------------------

  /** arp_ignore: whether a request from `sip` for the local address `tip`
      goes unanswered under arp_ignore `mode`.  Modes 1 to 3 ask
      inet_confirm_addr (`confirm`) whether `tip` is configured on the
      device, in the given scope, with the given peer (0.0.0.0 for any). */
  function IgnoresRequest(mode: nat, sip: Ip, tip: Ip, confirm: (Ip, Ip, Scope) -> bool): bool {
    match mode
    case 1 => !confirm(ANY, tip, ScopeHost)
    case 2 => !confirm(sip, tip, ScopeHost)
    case 3 => !confirm(ANY, tip, ScopeLink)
    case 8 => true
    case _ => false
  }

  /** The mode table: modes 0 and 4 to 7 (and unknown ones) always reply,
      mode 8 never does, modes 1 to 3 reply exactly when the target address
      is confirmed; only mode 2 looks at the sender. */
  lemma IgnoreTable(mode: nat, sip: Ip, sip2: Ip, tip: Ip, confirm: (Ip, Ip, Scope) -> bool)
    ensures mode !in {1, 2, 3, 8} ==> !IgnoresRequest(mode, sip, tip, confirm)
    ensures mode == 8 ==> IgnoresRequest(mode, sip, tip, confirm)
    ensures 1 <= mode <= 3 ==>
      (IgnoresRequest(mode, sip, tip, confirm) <==>
        !confirm(if mode == 2 then sip else ANY, tip, if mode == 3 then ScopeLink else ScopeHost))
    ensures mode != 2 ==> IgnoresRequest(mode, sip, tip, confirm) == IgnoresRequest(mode, sip2, tip, confirm)
  {
  }

  // -------------------------------------------------------------------------
  // arp_state_to_flags
  // -------------------------------------------------------------------------

  /** The ioctl flags of an entry: permanent entries are ATF_PERM and
      complete, other valid entries complete, the rest nothing. */
  function StateToFlags(s: State): (f: bv32)
    ensures f & ATF_PERM != 0 <==> s == PERMANENT
    ensures f & ATF_COM != 0 <==> IsValid(s)
    ensures f & !(ATF_PERM | ATF_COM) == 0
  {
    if s == PERMANENT then ATF_PERM | ATF_COM
    else if IsValid(s) then ATF_COM
    else 0
  }
}
